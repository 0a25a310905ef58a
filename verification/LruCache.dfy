/**
 The LRU cache of internal/cache/lru.go on the heap: a key table beside a doubly linked
 list, refining the entry sequences of LruSpec.
 */
module LruCache {
  import opened LruSpec

  /** A list element with the item it carries. */
  class Element {
    const key: string
    var value: int
    var hits: int
    var prev: Element
    var next: Element

    constructor (key: string, value: int, hits: int)
      ensures this.key == key && this.value == value && this.hits == hits
      ensures prev == this && next == this
    {
      this.key := key;
      this.value := value;
      this.hits := hits;
      prev := this;
      next := this;
    }
  }

  /** Each element of the row is linked both ways with the one after it. */
  ghost predicate Linked(row: seq<Element>)
    requires row != []
    reads row[..|row| - 1]`next, row[1..]`prev
    decreases |row|
  {
    |row| == 1
    || (&& row[0].next == row[1] && row[1].prev == row[0]
        && Linked(row[1..]))
  }

  lemma {:induction false} LinkedJoin(left: seq<Element>, right: seq<Element>)
    requires left != [] && right != []
    ensures Linked(left + right) <==>
              Linked(left) && Linked(right) && left[|left| - 1].next == right[0] && right[0].prev == left[|left| - 1]
    decreases |left|
  {
    var row := left + right;
    assert row[..|row| - 1][1..] == row[1..][..|row| - 2];
    if |left| == 1 {
      assert row[1..] == right;
    } else {
      assert left[..|left| - 1][1..] == left[1..][..|left| - 2];
      assert row[1..] == left[1..] + right;
      LinkedJoin(left[1..], right);
    }
  }

  /** The nodes are distinct and `elems` is their set. */
  ghost predicate Once(nodes: seq<Element>, elems: set<Element>)
  {
    if nodes == [] then elems == {} else nodes[0] in elems && Once(nodes[1..], elems - {nodes[0]})
  }

  lemma {:induction false} OnceMember(nodes: seq<Element>, elems: set<Element>, e: Element)
    requires Once(nodes, elems)
    ensures e in nodes <==> e in elems
  {
    if nodes != [] {
      OnceMember(nodes[1..], elems - {nodes[0]}, e);
    }
  }

  lemma OncePush(e: Element, nodes: seq<Element>, elems: set<Element>)
    requires Once(nodes, elems) && e !in elems
    ensures Once([e] + nodes, elems + {e})
  {
    assert ([e] + nodes)[1..] == nodes && elems + {e} - {e} == elems;
  }

  lemma {:induction false} OnceSplit(nodes: seq<Element>, elems: set<Element>, i: nat)
    returns (le: set<Element>, re: set<Element>)
    requires Once(nodes, elems) && i < |nodes|
    ensures Once(nodes[..i], le) && Once(nodes[i + 1..], re) && Once(Cut(nodes, i), elems - {nodes[i]})
    ensures nodes[i] in elems && nodes[i] !in le + re && le !! re && le + re == elems - {nodes[i]}
  {
    var e := nodes[i];
    if i == 0 {
      le, re := {}, elems - {e};
      assert Cut(nodes, 0) == nodes[1..];
    } else {
      var f := nodes[0];
      le, re := OnceSplit(nodes[1..], elems - {f}, i - 1);
      assert nodes[..i][1..] == nodes[1..][..i - 1];
      assert nodes[1..][i..] == nodes[i + 1..];
      assert Cut(nodes, i)[1..] == Cut(nodes[1..], i - 1);
      assert elems - {f} - {e} == elems - {e} - {f};
      le := le + {f};
      assert le - {f} + {} == le - {f};
    }
  }

  lemma {:induction false} OnceIndices(nodes: seq<Element>, elems: set<Element>, i: nat, j: nat)
    requires Once(nodes, elems) && i < j < |nodes|
    ensures nodes[i] != nodes[j]
  {
    OnceMember(nodes[1..], elems - {nodes[0]}, nodes[0]);
    if i > 0 {
      OnceIndices(nodes[1..], elems - {nodes[0]}, i - 1, j - 1);
    }
  }

  /** The nodes before and behind the i-th one are others, and all different. */
  lemma OnceSides(nodes: seq<Element>, elems: set<Element>, i: nat)
    requires Once(nodes, elems) && i < |nodes|
    ensures Once(Cut(nodes, i), elems - {nodes[i]}) && nodes[i] in elems
    ensures forall x :: x in Cut(nodes, i) ==> x in elems - {nodes[i]}
    ensures forall j, k :: 0 <= j < k < |nodes| ==> nodes[j] != nodes[k]
  {
    var le, re := OnceSplit(nodes, elems, i);
    forall x | x in Cut(nodes, i) ensures x in elems - {nodes[i]} {
      OnceMember(Cut(nodes, i), elems - {nodes[i]}, x);
    }
    forall j, k | 0 <= j < k < |nodes| ensures nodes[j] != nodes[k] {
      OnceIndices(nodes, elems, j, k);
    }
  }

  /** The doubly linked list, a ring through a sentinel; `nodes` is its elements from front
      to back, `elems` their set. */
  class EvictList {
    const root: Element
    var length: nat
    ghost var nodes: seq<Element>
    ghost var elems: set<Element>

    ghost function Row(): seq<Element>
      reads `nodes
    {
      [root] + nodes + [root]
    }

    ghost predicate Valid()
      reads this, root`prev, root`next, elems`prev, elems`next
    {
      && length == |nodes| && root !in elems
      && Once(nodes, elems)
      && (forall e :: e in nodes ==> e in elems)
      && Linked(Row())
    }

    constructor ()
      ensures Valid() && nodes == [] && elems == {} && fresh(root)
    {
      root := new Element("", 0, 0);
      length := 0;
      nodes := [];
      elems := {};
    }

    /** The row behind the sentinel. */
    lemma FrontRow()
      requires Valid()
      ensures Linked(nodes + [root]) && root.next == (nodes + [root])[0]
      ensures root.next !in (nodes + [root])[1..] && root.next in elems + {root}
    {
      assert Row() == [root] + (nodes + [root]);
      LinkedJoin([root], nodes + [root]);
      if nodes != [] {
        OnceMember(nodes[1..], elems - {nodes[0]}, nodes[0]);
        assert (nodes + [root])[1..] == nodes[1..] + [root];
      }
    }

    method PushFront(e: Element)
      requires Valid() && e !in elems && e != root
      modifies this, root`next, root`prev, e`prev, e`next, elems`prev
      ensures Valid() && nodes == [e] + old(nodes) && elems == old(elems) + {e}
    {
      ghost var rest := nodes + [root];
      FrontRow();
      var n := root.next;
      e.prev := root;
      e.next := n;
      root.next := e;
      n.prev := e;
      length := length + 1;
      LinkedJoin([e], rest);
      LinkedJoin([root], [e] + rest);
      OncePush(e, nodes, elems);
      nodes := [e] + nodes;
      elems := elems + {e};
      assert Row() == [root] + ([e] + rest);
    }

    /** The neighbours of the i-th node stand at the ends of the rows beside it only. */
    static lemma Apart(root: Element, nodes: seq<Element>, i: nat, left: seq<Element>, right: seq<Element>)
      requires i < |nodes| && root !in nodes
      requires forall j, k :: 0 <= j < k < |nodes| ==> nodes[j] != nodes[k]
      requires left == [root] + nodes[..i] && right == nodes[i + 1..] + [root]
      ensures nodes[i] !in left && nodes[i] !in right
      ensures left[|left| - 1] !in left[..|left| - 1] && left[|left| - 1] !in right[..|right| - 1]
      ensures right[0] !in left[1..] && right[0] !in right[1..]
      ensures left[|left| - 1] in nodes + [root] && right[0] in nodes + [root]
    {
      assert left[1..] == nodes[..i] && left[..|left| - 1] == if i == 0 then [] else [root] + nodes[..i - 1];
      assert right[..|right| - 1] == nodes[i + 1..]
          && right[1..] == if i == |nodes| - 1 then [] else nodes[i + 2..] + [root];
    }

    /** The rows on both sides of an element, and that its neighbours stand at their ends only. */
    lemma Sides(i: nat) returns (left: seq<Element>, right: seq<Element>)
      requires Valid() && i < |nodes|
      ensures left != [] && right != [] && Linked(left) && Linked(right)
      ensures left + right == [root] + Cut(nodes, i) + [root]
      ensures nodes[i] in elems && nodes[i] !in left && nodes[i] !in right
      ensures nodes[i].prev == left[|left| - 1] && nodes[i].next == right[0]
      ensures nodes[i].prev !in left[..|left| - 1] && nodes[i].prev !in right[..|right| - 1]
      ensures nodes[i].next !in left[1..] && nodes[i].next !in right[1..]
      ensures nodes[i].prev in elems + {root} && nodes[i].next in elems + {root}
      ensures Once(Cut(nodes, i), elems - {nodes[i]})
      ensures forall x :: x in Cut(nodes, i) ==> x in elems - {nodes[i]}
    {
      OnceSides(nodes, elems, i);
      left, right := [root] + nodes[..i], nodes[i + 1..] + [root];
      SidesLinked(i, left, right);
      Apart(root, nodes, i, left, right);
    }

    lemma SidesLinked(i: nat, left: seq<Element>, right: seq<Element>)
      requires Valid() && i < |nodes| && left == [root] + nodes[..i] && right == nodes[i + 1..] + [root]
      ensures Linked(left) && Linked(right) && nodes[i].prev == left[|left| - 1] && nodes[i].next == right[0]
    {
      assert Row() == left + ([nodes[i]] + right);
      LinkedJoin(left, [nodes[i]] + right);
      LinkedJoin([nodes[i]], right);
    }

    method Remove(e: Element, ghost i: nat)
      requires Valid() && i < |nodes| && nodes[i] == e
      modifies this, root`next, root`prev, elems`prev, elems`next
      ensures Valid() && nodes == Cut(old(nodes), i) && elems == old(elems) - {e}
      ensures e in old(elems)
    {
      ghost var left, right := Sides(i);
      var p, n := e.prev, e.next;
      p.next := n;
      n.prev := p;
      length := length - 1;
      LinkedJoin(left, right);
      nodes := Cut(nodes, i);
      elems := elems - {e};
    }

    method MoveToFront(e: Element, ghost i: nat)
      requires Valid() && i < |nodes| && nodes[i] == e
      modifies this, root`next, root`prev, elems`prev, elems`next
      ensures Valid() && nodes == [e] + Cut(old(nodes), i) && elems == old(elems)
      ensures e in elems
    {
      if root.next == e {
        if i > 0 {
          assert nodes[1..][i - 1] == e;
          OnceMember(nodes[1..], elems - {nodes[0]}, e);
          assert false;
        }
        assert [e] + Cut(nodes, 0) == nodes;
        return;
      }
      Remove(e, i);
      PushFront(e);
    }

    method Front() returns (e: Element?)
      requires Valid()
      ensures e == if nodes == [] then null else nodes[0]
    {
      FrontRow();
      e := if length == 0 then null else root.next;
    }

    method Back() returns (e: Element?)
      requires Valid()
      ensures e == if nodes == [] then null else nodes[|nodes| - 1]
    {
      LinkedJoin([root] + nodes, [root]);
      e := if length == 0 then null else root.prev;
    }

    method Prev(e: Element, ghost i: nat) returns (p: Element?)
      requires Valid() && i < |nodes| && nodes[i] == e
      ensures p == if i == 0 then null else nodes[i - 1]
    {
      ghost var left, right := [root] + nodes[..i], nodes[i..] + [root];
      assert Row() == left + right;
      LinkedJoin(left, right);
      p := if e.prev == root then null else e.prev;
    }
  }

  /** The entries that the nodes carry. */
  ghost predicate Carry(nodes: seq<Element>, es: seq<Entry>)
    reads nodes`value, nodes`hits
  {
    |es| == |nodes|
    && (nodes == [] || (es[0] == Entry(nodes[0].key, nodes[0].value, nodes[0].hits) && Carry(nodes[1..], es[1..])))
  }

  lemma {:induction false} CarryCut(nodes: seq<Element>, es: seq<Entry>, i: nat)
    requires Carry(nodes, es) && i < |nodes|
    ensures Carry(Cut(nodes, i), Cut(es, i))
    ensures es[i] == Entry(nodes[i].key, nodes[i].value, nodes[i].hits)
  {
    if i == 0 {
      assert Cut(nodes, 0) == nodes[1..] && Cut(es, 0) == es[1..];
    } else {
      CarryCut(nodes[1..], es[1..], i - 1);
      assert Cut(nodes, i)[1..] == Cut(nodes[1..], i - 1) && Cut(es, i)[1..] == Cut(es[1..], i - 1);
    }
  }

  class LRUCache {
    const capacity: int
    var items: map<string, Element>
    const evictList: EvictList
    /** The entries from most to least recently used. */
    ghost var contents: seq<Entry>

    /** Table and list hold the same elements, each under its own key, and `contents` is
        what the list carries. */
    ghost predicate Agree()
      reads this, evictList, evictList.root, evictList.elems
    {
      && evictList.Valid()
      && (forall e :: e in evictList.elems ==> e.key in items && items[e.key] == e)
      && (forall k :: k in items ==> items[k] in evictList.elems && items[k].key == k)
      && Carry(evictList.nodes, contents)
    }

    ghost predicate Valid()
      reads this, evictList, evictList.root, evictList.elems
    {
      Agree() && |contents| <= Limit(capacity)
    }

    constructor (capacity: int)
      ensures Valid() && contents == [] && this.capacity == capacity
      ensures fresh(evictList) && fresh(evictList.root)
    {
      this.capacity := capacity;
      items := map[];
      evictList := new EvictList();
      contents := [];
    }

    /** Where an element of the table stands in the list. */
    lemma PlaceOf(key: string) returns (i: nat)
      requires Agree() && key in items
      ensures i < |evictList.nodes| == |contents| && evictList.nodes[i] == items[key]
      ensures contents[i].key == key && DistinctKeys(contents)
    {
      OnceMember(evictList.nodes, evictList.elems, items[key]);
      i :| 0 <= i < |evictList.nodes| && evictList.nodes[i] == items[key];
      CarryCut(evictList.nodes, contents, i);
      AgreeDistinct();
    }

    lemma AgreeDistinct()
      requires Agree()
      ensures DistinctKeys(contents) && |contents| == |evictList.nodes|
      ensures forall i :: 0 <= i < |contents| ==> contents[i].key in items
    {
      forall i | 0 <= i < |contents| ensures contents[i].key in items {
        CarryCut(evictList.nodes, contents, i);
      }
      forall i, j | 0 <= i < j < |contents| ensures contents[i].key != contents[j].key {
        CarryCut(evictList.nodes, contents, i);
        CarryCut(evictList.nodes, contents, j);
        OnceIndices(evictList.nodes, evictList.elems, i, j);
      }
    }

    lemma Absent(key: string)
      requires Agree() && key !in items
      ensures !Has(contents, key)
    {
      AgreeDistinct();
    }

    method Add(key: string, value: int)
      requires Valid()
      modifies this, evictList, evictList.root, evictList.elems
      ensures Valid() && contents == LruSpec.Add(capacity, old(contents), key, value)
    {
      if key in items {
        var element := items[key];
        ghost var i := Refresh(element, value);
        AddAt(capacity, old(contents), i, value);
        return;
      }
      Absent(key);
      AddNew(capacity, contents, key, value);
      var element := new Element(key, value, 1);
      PushFront(element);
      EvictIfNeeded();
    }

    /** A new element goes to the front of the list and into the table. */
    method PushFront(element: Element)
      requires Agree() && element.key !in items && element != evictList.root
      modifies this, evictList, evictList.root`prev, evictList.root`next, evictList.elems`prev, element`prev,
          element`next
      ensures Agree() && evictList.elems == old(evictList.elems) + {element}
      ensures contents == [Entry(element.key, element.value, element.hits)] + old(contents)
    {
      evictList.PushFront(element);
      items := items[element.key := element];
      ghost var rest := contents;
      contents := [Entry(element.key, element.value, element.hits)] + rest;
      assert evictList.nodes[1..] == old(evictList.nodes) && contents[1..] == rest;
    }

    method Get(key: string) returns (hit: bool)
      requires Valid()
      modifies `contents, evictList, evictList.root, evictList.elems
      ensures Valid() && contents == LruSpec.Get(old(contents), key)
      ensures hit <==> Has(old(contents), key)
    {
      if key !in items {
        Absent(key);
        return false;
      }
      var element := items[key];
      ghost var i := Refresh(element, element.value);
      GetAt(old(contents), i);
      return true;
    }

    /** A hit: the element moves to the front, takes the value and counts the access. */
    method Refresh(element: Element, value: int) returns (ghost i: nat)
      requires Agree() && element.key in items && items[element.key] == element
      modifies `contents, evictList, evictList.root, evictList.elems
      ensures Agree() && i < |old(contents)| && DistinctKeys(old(contents))
      ensures old(contents)[i] == Entry(element.key, old(element.value), old(element.hits))
      ensures contents == [Entry(element.key, value, old(contents)[i].hits + 1)] + Cut(old(contents), i)
    {
      i := MoveToFront(element);
      element.value := value;
      element.hits := element.hits + 1;
      ghost var rest := contents[1..];
      contents := [Entry(element.key, value, contents[0].hits + 1)] + rest;
      assert contents[1..] == rest;
    }

    method Remove(key: string)
      requires Valid()
      modifies this, evictList, evictList.root, evictList.elems
      ensures Valid() && contents == Without(old(contents), key)
    {
      if key in items {
        ghost var i := PlaceOf(key);
        WithoutAt(contents, i);
        var element := items[key];
        Unlink(element, i);
      } else {
        Absent(key);
        WithoutAbsent(contents, key);
      }
    }

    /** The list moves an element of the table to the front; where it stood is returned. */
    method MoveToFront(element: Element) returns (ghost i: nat)
      requires Agree() && element.key in items && items[element.key] == element
      modifies `contents, evictList, evictList.root`prev, evictList.root`next, evictList.elems`prev,
          evictList.elems`next
      ensures Agree() && evictList.elems == old(evictList.elems)
      ensures i < |old(contents)| && old(contents)[i].key == element.key && DistinctKeys(old(contents))
      ensures contents == [old(contents)[i]] + Cut(old(contents), i)
      ensures contents[0] == Entry(element.key, element.value, element.hits)
      ensures evictList.nodes != [] && evictList.nodes[0] == element && element !in evictList.nodes[1..]
    {
      ghost var nodes := evictList.nodes;
      i := PlaceOf(element.key);
      CarryCut(nodes, contents, i);
      OnceSides(nodes, evictList.elems, i);
      evictList.MoveToFront(element, i);
      contents := [contents[i]] + Cut(contents, i);
      assert evictList.nodes[1..] == Cut(nodes, i) && contents[1..] == Cut(old(contents), i);
    }

    /** Takes an element out of the list and its key out of the table. */
    method Unlink(element: Element, ghost i: nat)
      requires Agree() && i < |evictList.nodes| && evictList.nodes[i] == element
      modifies this, evictList, evictList.root`prev, evictList.root`next, evictList.elems`prev, evictList.elems`next
      ensures Agree() && contents == Cut(old(contents), i) && evictList.elems < old(evictList.elems)
    {
      CarryCut(evictList.nodes, contents, i);
      items := items - {element.key};
      evictList.Remove(element, i);
      contents := Cut(contents, i);
    }

    method EvictIfNeeded()
      requires Agree()
      modifies this, evictList, evictList.root`prev, evictList.root`next, evictList.elems`prev, evictList.elems`next
      ensures Agree() && contents == LruSpec.EvictIfNeeded(capacity, old(contents))
      ensures evictList.elems <= old(evictList.elems)
    {
      if capacity == 0 {
        if evictList.length > 0 {
          var element := evictList.Front();
          if element != null {
            Unlink(element, 0);
          }
        }
        return;
      }
      while evictList.length > capacity
        invariant Agree() && evictList.elems <= old(evictList.elems)
        invariant contents <= old(contents)
        invariant Limit(capacity) <= |contents| || contents == old(contents)
        decreases |contents|
      {
        var element := evictList.Back();
        if element != null {
          Unlink(element, |evictList.nodes| - 1);
        } else {
          break;
        }
      }
    }

    /** The n least recently used entries, least recent first. */
    method GetLRUItems(n: nat) returns (result: seq<Entry>)
      requires Valid()
      ensures |result| == if n < |contents| then n else |contents|
      ensures forall i :: 0 <= i < |result| ==> result[i] == contents[|contents| - 1 - i]
    {
      result := [];
      var element := evictList.Back();
      var i := 0;
      while i < n && element != null
        invariant i == |result| <= |contents| && i <= n
        invariant element == if i == |contents| then null else evictList.nodes[|contents| - 1 - i]
        invariant forall j :: 0 <= j < i ==> result[j] == contents[|contents| - 1 - j]
      {
        CarryCut(evictList.nodes, contents, |contents| - 1 - i);
        result := result + [Entry(element.key, element.value, element.hits)];
        element := evictList.Prev(element, |contents| - 1 - i);
        i := i + 1;
      }
    }

    /** The n entries with the most hits, most hits first: no entry left out has more hits
        than one returned. */
    method GetMostPopularItems(n: nat) returns (result: seq<Entry>)
      requires Valid()
      ensures |result| == if n < |contents| then n else |contents|
      ensures Popularity(result) && multiset(result) <= multiset(contents)
      ensures forall kept, left :: kept in result && left in multiset(contents) - multiset(result) ==>
          kept.hits >= left.hits
    {
      var all := AllItems();
      SortByHits(all);
      TopOf(all[..], contents, if all.Length < n then all.Length else n);
      if all.Length < n {
        return all[..];
      }
      result := all[..n];
    }

    lemma EntryIn(key: string)
      requires Agree() && key in items
      ensures items[key].key == key && Entry(key, items[key].value, items[key].hits) in contents
    {
      var i := PlaceOf(key);
      CarryCut(evictList.nodes, contents, i);
    }

    /** The entries of all keys, in the order the table happens to give them. */
    method AllItems() returns (all: array<Entry>)
      requires Valid()
      ensures fresh(all) && multiset(all[..]) == multiset(contents)
    {
      TableCount(this);
      AgreeDistinct();
      all := new Entry[|items|];
      var keys, count := items.Keys, 0;
      while keys != {}
        invariant keys <= items.Keys && count + |keys| == all.Length == |items|
        invariant DistinctKeys(all[..count])
        invariant forall i :: 0 <= i < count ==> all[i].key !in keys && all[i] in contents
        decreases |keys|
      {
        var k :| k in keys;
        var element := items[k];
        EntryIn(k);
        ghost var before := all[..count];
        all[count] := Entry(element.key, element.value, element.hits);
        assert all[..count + 1] == before + [all[count]];
        count, keys := count + 1, keys - {k};
      }
      assert all[..] == all[..count];
      SameEntries(all[..], contents);
    }

    method Size() returns (size: nat)
      requires Valid()
      ensures size == |contents|
    {
      TableCount(this);
      size := |items|;
    }
  }

  lemma TableCount(c: LRUCache)
    requires c.Agree()
    ensures |c.items| == |c.contents|
  {
    forall k ensures k in c.items <==> Has(c.contents, k) {
      if k in c.items {
        var i := c.PlaceOf(k);
      } else {
        c.Absent(k);
      }
    }
    c.AgreeDistinct();
    CountKeys(c.contents, c.items.Keys);
  }

  lemma {:induction false} CountKeys(es: seq<Entry>, keys: set<string>)
    requires DistinctKeys(es)
    requires forall k :: k in keys <==> Has(es, k)
    ensures |keys| == |es|
  {
    if es == [] {
      assert keys == {};
    } else {
      var key := es[0].key;
      assert Has(es, key);
      forall k ensures k in keys - {key} <==> Has(es[1..], k) {
        HasFirst(es, k);
      }
      CountKeys(es[1..], keys - {key});
    }
  }

  ghost predicate Popularity(es: seq<Entry>)
  {
    forall i, j :: 0 <= i < j < |es| ==> es[i].hits >= es[j].hits
  }

  /** The insertion sort of GetMostPopularItems. */
  method SortByHits(a: array<Entry>)
    modifies a
    ensures Popularity(a[..]) && multiset(a[..]) == multiset(old(a[..]))
  {
    var i := 1;
    while i < a.Length
      invariant 1 <= i && (i <= a.Length || a.Length == 0)
      invariant Popularity(a[..if i <= a.Length then i else 0])
      invariant multiset(a[..]) == multiset(old(a[..]))
    {
      var j := i;
      while j > 0 && a[j - 1].hits < a[j].hits
        invariant 0 <= j <= i
        invariant forall p, q :: 0 <= p < q <= i && p != j && q != j ==> a[p].hits >= a[q].hits
        invariant forall q :: j < q <= i ==> a[j].hits >= a[q].hits
        invariant multiset(a[..]) == multiset(old(a[..]))
      {
        SwapBack(a, j);
        j := j - 1;
      }
      i := i + 1;
    }
  }

  /** Exchanges the j-th element with the one before it. */
  method SwapBack(a: array<Entry>, j: nat)
    requires 0 < j < a.Length
    modifies a
    ensures a[..] == old(a[..])[j - 1 := old(a[j])][j := old(a[j - 1])]
    ensures multiset(a[..]) == multiset(old(a[..]))
  {
    a[j - 1], a[j] := a[j], a[j - 1];
    assert a[..] == old(a[..])[j - 1 := old(a[j])][j := old(a[j - 1])];
  }

  /** The first n of the sorted entries are a best choice of n. */
  lemma TopOf(sorted: seq<Entry>, es: seq<Entry>, n: nat)
    requires Popularity(sorted) && multiset(sorted) == multiset(es) && n <= |sorted|
    ensures |sorted| == |es| && multiset(sorted[..n]) <= multiset(es)
    ensures forall kept, left :: kept in sorted[..n] && left in multiset(es) - multiset(sorted[..n]) ==>
        kept.hits >= left.hits
    ensures sorted[..|sorted|] == sorted
  {
    assert |multiset(sorted)| == |multiset(es)|;
    LeftOver(sorted, n);
    forall kept, left | kept in sorted[..n] && left in multiset(es) - multiset(sorted[..n])
      ensures kept.hits >= left.hits {
      FirstOverRest(sorted, n, kept, left);
    }
  }

  lemma LeftOver(sorted: seq<Entry>, n: nat)
    requires n <= |sorted|
    ensures multiset(sorted[..n]) <= multiset(sorted)
    ensures multiset(sorted) - multiset(sorted[..n]) == multiset(sorted[n..])
  {
    assert sorted == sorted[..n] + sorted[n..];
  }

  lemma FirstOverRest(sorted: seq<Entry>, n: nat, kept: Entry, left: Entry)
    requires Popularity(sorted) && n <= |sorted| && kept in sorted[..n] && left in sorted[n..]
    ensures kept.hits >= left.hits
  {
    var i, j :| 0 <= i < n && sorted[..n][i] == kept && 0 <= j < |sorted| - n && sorted[n..][j] == left;
    assert sorted[i] == kept && sorted[n + j] == left;
  }

  lemma {:induction false} OneEach(es: seq<Entry>, e: Entry)
    requires DistinctKeys(es)
    ensures multiset(es)[e] == if e in es then 1 else 0
  {
    if es != [] {
      assert es == [es[0]] + es[1..];
      OneEach(es[1..], e);
    }
  }

  /** As many different entries as there are, and no others, are all of them. */
  lemma SameEntries(s: seq<Entry>, t: seq<Entry>)
    requires DistinctKeys(s) && DistinctKeys(t) && |s| == |t|
    requires forall i :: 0 <= i < |s| ==> s[i] in t
    ensures multiset(s) == multiset(t)
  {
    forall e ensures multiset(s)[e] <= multiset(t)[e] {
      OneEach(s, e);
      OneEach(t, e);
    }
    assert |multiset(t) - multiset(s)| == 0;
  }
}
