/** The members of a SEQUENCE OF or SET OF (lib/casn/casn.c): a chain of structures whose
    first is part of the list itself and whose last is a blank that ends the chain. */
module OfChain {
  import opened Sequences

  /** A struct casn with its `ptr`; `value` is everything that copy_casn copies. */
  class Node<T> {
    var value: T
    var next: Node?<T>

    constructor (value: T, next: Node?<T>)
      ensures this.value == value && this.next == next
    {
      this.value := value;
      this.next := next;
    }
  }

  ghost function After<T>(nodes: seq<Node<T>>, i: int): Node?<T>
    requires 0 <= i < |nodes|
  {
    if i + 1 < |nodes| then nodes[i + 1] else null
  }

  /** r is s with x put in at index k. */
  ghost predicate IsInsert<X>(s: seq<X>, k: nat, x: X, r: seq<X>) {
    && k <= |s| && |r| == |s| + 1
    && forall i {:trigger r[i]} :: 0 <= i < |r| ==> r[i] == if i < k then s[i] else if i == k then x else s[i - 1]
  }

  /** r is s without its element at index k. */
  ghost predicate IsErase<X>(s: seq<X>, k: nat, r: seq<X>) {
    && k < |s| && |r| == |s| - 1
    && forall i {:trigger r[i]} :: 0 <= i < |r| ==> r[i] == if i < k then s[i] else s[i + 1]
  }

  lemma Insert<X>(s: seq<X>, k: nat, x: X) returns (r: seq<X>)
    requires k <= |s|
    ensures IsInsert(s, k, x, r)
  {
    r := s[..k] + [x] + s[k..];
  }

  lemma Erase<X>(s: seq<X>, k: nat) returns (r: seq<X>)
    requires k < |s|
    ensures IsErase(s, k, r)
  {
    r := s[..k] + s[k + 1..];
  }

  lemma DistinctInsert<X>(s: seq<X>, k: nat, x: X, r: seq<X>)
    requires Distinct(s) && IsInsert(s, k, x, r) && x !in s
    ensures Distinct(r)
  {
    forall i: nat, j: nat | Same(r, i, j)
      ensures i == j
    {
      assert i != k && j != k ==> Same(s, if i < k then i else i - 1, if j < k then j else j - 1);
    }
  }

  lemma DistinctErase<X>(s: seq<X>, k: nat, r: seq<X>)
    requires Distinct(s) && IsErase(s, k, r)
    ensures Distinct(r)
  {
    forall i: nat, j: nat | Same(r, i, j)
      ensures i == j
    {
      assert Same(s, if i < k then i else i + 1, if j < k then j else j + 1);
    }
  }

  class Of<T(==)> {
    const first: Node<T>            // casnp[1]
    const blank: T
    const max: nat                  // 0 for no limit
    var last: Node<T>               // lastp
    var count: nat                  // num_items
    ghost var nodes: seq<Node<T>>   // the chain, with its end
    ghost var contents: seq<T>      // the members
    ghost var repr: set<object>

    ghost predicate Linked()
      reads this, repr
    {
      && |nodes| > 0 && nodes[0] == first && Distinct(nodes)
      && (forall i :: 0 <= i < |nodes| ==> nodes[i] in repr)
      && forall i {:trigger nodes[i].next} :: 0 <= i < |nodes| ==> nodes[i].next == After(nodes, i)
    }

    ghost predicate Valid()
      reads this, repr
    {
      && this in repr && Linked()
      && count == |contents| == |nodes| - 1
      && (forall i :: 0 <= i < count ==> nodes[i].value == contents[i])
      && nodes[count].value == blank
      && (count > 0 ==> last == nodes[count - 1])
    }

    constructor (blank: T, max: nat)
      ensures Valid() && contents == [] && fresh(repr) && this.blank == blank && this.max == max
    {
      var f := new Node(blank, null);
      first, last, count, nodes := f, f, 0, [f];
      this.blank, this.max := blank, max;
      contents, repr := [], {this, f};
    }

    /** num_items. */
    method NumItems() returns (num: nat)
      requires Valid()
      ensures num == |contents|
    {
      var p := first;
      num := 0;
      while p.next != null
        invariant num < |nodes| && p == nodes[num]
        decreases |nodes| - num
      {
        p := p.next;
        num := num + 1;
      }
    }

    /** member_casn: the member at an index, null if there is none. */
    method Member(index: int) returns (r: Node?<T>)
      requires Valid()
      ensures r == if 0 <= index < |contents| then nodes[index] else null
      ensures r != null ==> r.value == contents[index]
    {
      if index < 0 || first.next == null {
        return null;
      }
      var p, left := first, index;
      ghost var k := 0;
      while left != 0 && p.next != null
        invariant 0 <= k < |nodes| && p == nodes[k] && left == index - k >= 0
        decreases |nodes| - k
      {
        p, left := p.next, left - 1;
        k := k + 1;
      }
      if left > 0 || p.next == null {
        return null;
      }
      return p;
    }

    /** next_of: the member after a member; null after the last, and for the blank that
        ends the chain. */
    method NextOf(p: Node<T>, ghost k: nat) returns (r: Node?<T>)
      requires Valid() && k <= |contents| && p == nodes[k]
      ensures r == if k + 1 < |contents| then nodes[k + 1] else null
    {
      r := p.next;
      if r != null && r.next == null {
        r := null;
      }
    }

    /** The node before index `num`, found by walking. */
    method Previous(num: nat) returns (p: Node<T>)
      requires Valid() && 0 < num <= count
      ensures p == nodes[num - 1]
    {
      p := first;
      var icount := num - 1;
      while icount != 0
        invariant 0 <= icount < num && p == nodes[num - 1 - icount]
      {
        p := p.next;
        icount := icount - 1;
      }
    }

    /** inject_casn into an empty list. */
    method LinkOnly(t: Node<T>)
      requires Valid() && count == 0 && t !in repr && t.value == blank && t.next == null
      modifies repr
      ensures Valid() && repr == old(repr) + {t} && contents == [blank]
    {
      last := first;
      first.next := t;
      nodes, repr, contents, count := [first, t], repr + {t}, [blank], 1;
    }

    /** Links a structure behind node k. */
    method Splice(p: Node<T>, t: Node<T>, ghost k: nat)
      requires this in repr && Linked() && k < |nodes| && p == nodes[k] && t !in repr
      modifies this`nodes, this`repr, p`next, t`next
      ensures Linked() && repr == old(repr) + {t} && IsInsert(old(nodes), k + 1, t, nodes)
    {
      ghost var after := Insert(nodes, k + 1, t);
      DistinctInsert(nodes, k + 1, t, after);
      Others(nodes, k);
      t.next := p.next;
      p.next := t;
      nodes, repr := after, repr + {t};
    }

    /** inject_casn at the front of a list: the first structure must stay first, so its
        member moves to the new one. */
    method LinkFirst(t: Node<T>)
      requires Valid() && count > 0 && t !in repr
      modifies repr, t
      ensures Valid() && repr == old(repr) + {t}
      ensures IsInsert(old(contents), 0, blank, contents)
    {
      Others(nodes, 0);
      t.value := first.value;
      first.value := blank;
      if count == 1 {
        last := t;
      }
      Splice(first, t, 0);
      contents := Insert(contents, 0, blank);
      count := count + 1;
    }

    /** inject_casn behind another member. */
    method LinkBehind(num: nat, t: Node<T>)
      requires Valid() && 0 < num <= count && t !in repr && t.value == blank
      modifies repr, t
      ensures Valid() && repr == old(repr) + {t}
      ensures IsInsert(old(contents), num, blank, contents) && t == nodes[num]
    {
      var p := last;
      if num != count {
        p := Previous(num);
      }
      Splice(p, t, num - 1);
      if num == count {
        last := t;
      }
      contents := Insert(contents, num, blank);
      count := count + 1;
    }

    /** inject_casn in front of member `num`, or at the end. */
    method Inject(num: nat) returns (r: Node?<T>)
      requires Valid() && num <= count
      modifies repr
      ensures Valid() && fresh(repr - old(repr))
      ensures r == null <==> max > 0 && num >= max
      ensures if r == null then contents == old(contents)
              else IsInsert(old(contents), num, blank, contents) && r == nodes[num]
    {
      if max > 0 && num >= max {
        return null;
      }
      var t := new Node(blank, null);
      if num == 0 {
        if count == 0 {
          LinkOnly(t);
        } else {
          LinkFirst(t);
        }
        r := first;
      } else {
        LinkBehind(num, t);
        r := t;
      }
    }

    /** Takes the node behind node k out of the chain. */
    method Unlink(p: Node<T>, t: Node<T>, ghost k: nat)
      requires this in repr && Linked() && k + 1 < |nodes| && p == nodes[k] && t == nodes[k + 1]
      modifies this`nodes, p`next
      ensures Linked() && IsErase(old(nodes), k + 1, nodes)
    {
      ghost var after := Erase(nodes, k + 1);
      DistinctErase(nodes, k + 1, after);
      Others(nodes, k);
      p.next := t.next;
      nodes := after;
    }

    /** eject_casn of the first member: the second moves into its place. */
    method EjectFirst()
      requires Valid() && count > 0
      modifies repr
      ensures Valid() && repr == old(repr) && IsErase(old(contents), 0, contents)
    {
      var t := first.next;
      Others(nodes, 0);
      first.value := blank;
      if count > 1 {
        first.value := t.value;
        if last == t {
          last := first;
        }
      } else {
        last := first;
      }
      Others(nodes, 1);
      Unlink(first, t, 0);
      contents := Erase(contents, 0);
      count := count - 1;
    }

    method EjectBehind(num: nat)
      requires Valid() && 0 < num < count
      modifies repr
      ensures Valid() && repr == old(repr) && IsErase(old(contents), num, contents)
    {
      var p := Previous(num);
      var t := p.next;
      Others(nodes, num);
      Unlink(p, t, num - 1);
      if last == t {
        last := p;
      }
      contents := Erase(contents, num);
      count := count - 1;
    }

    /** eject_casn: false if there is no such member. */
    method Eject(num: nat) returns (ok: bool)
      requires Valid()
      modifies repr
      ensures Valid() && repr == old(repr)
      ensures ok <==> num < |old(contents)|
      ensures if ok then IsErase(old(contents), num, contents) else contents == old(contents)
    {
      var icount := NumItems();
      if num >= icount {
        return false;
      }
      if num == 0 {
        EjectFirst();
      } else {
        EjectBehind(num);
      }
      ok := true;
    }

    /** eject_all_casn. */
    method EjectAll()
      requires Valid()
      modifies repr
      ensures Valid() && repr == old(repr) && contents == []
    {
      var num := NumItems();
      if num == 0 {
        return;
      }
      for i := 1 to num
        invariant Valid() && |contents| == num + 1 - i
        invariant repr == old(repr)
      {
        var _ := Eject(1);
      }
      var _ := Eject(0);
    }

    /** Writing through the pointer that inject_casn or member_casn returned. */
    method Write(p: Node<T>, ghost k: nat, value: T)
      requires Valid() && k < count && p == nodes[k]
      modifies repr
      ensures Valid() && repr == old(repr) && contents == old(contents)[k := value]
    {
      Others(nodes, k);
      p.value := value;
      contents := contents[k := value];
    }

    /** The usual walk: member_casn for the first, then next_of. */
    method ReadAll() returns (r: seq<T>)
      requires Valid()
      ensures r == contents
    {
      r := [];
      var p := Member(0);
      while p != null
        invariant |r| <= count && r == contents[..|r|]
        invariant p == if |r| < count then nodes[|r|] else null
        decreases count - |r|
      {
        ghost var k := |r|;
        r := r + [p.value];
        p := NextOf(p, k);
      }
    }
  }

  // ----- whole runs -----

  datatype Op<T> = InjectAt(num: nat, value: T) | EjectAt(num: nat)

  /** What an operation means on a sequence. */
  function Step<T>(max: nat, s: seq<T>, op: Op<T>): seq<T> {
    match op
    case InjectAt(num, value) =>
      if num > |s| || (max > 0 && num >= max) then s else s[..num] + [value] + s[num..]
    case EjectAt(num) => if num >= |s| then s else s[..num] + s[num + 1..]
  }

  function Result<T>(max: nat, ops: seq<Op<T>>): seq<T> {
    if ops == [] then [] else Step(max, Result(max, ops[..|ops| - 1]), ops[|ops| - 1])
  }

  lemma InsertThenWrite<T>(s: seq<T>, k: nat, blank: T, r: seq<T>, value: T)
    requires IsInsert(s, k, blank, r)
    ensures r[k := value] == s[..k] + [value] + s[k..]
  {
  }

  lemma EraseIs<T>(s: seq<T>, k: nat, r: seq<T>)
    requires IsErase(s, k, r)
    ensures r == s[..k] + s[k + 1..]
  {
  }

  method PerformInject<T(==)>(of: Of<T>, num: nat, value: T)
    requires of.Valid()
    modifies of.repr
    ensures of.Valid() && fresh(of.repr - old(of.repr))
    ensures of.contents == Step(of.max, old(of.contents), InjectAt(num, value))
  {
    ghost var before := of.contents;
    var count := of.NumItems();
    if num <= count {
      var p := of.Inject(num);
      if p != null {
        InsertThenWrite(before, num, of.blank, of.contents, value);
        of.Write(p, num, value);
      }
    }
  }

  method Perform<T(==)>(of: Of<T>, op: Op<T>)
    requires of.Valid()
    modifies of.repr
    ensures of.Valid() && fresh(of.repr - old(of.repr))
    ensures of.contents == Step(of.max, old(of.contents), op)
  {
    match op {
      case InjectAt(num, value) => PerformInject(of, num, value);
      case EjectAt(num) =>
        ghost var before := of.contents;
        var ok := of.Eject(num);
        if ok {
          EraseIs(before, num, of.contents);
        }
    }
  }

  /** Over every run of operations on a fresh list, the chain is the sequence. */
  method Run<T(==)>(blank: T, max: nat, ops: seq<Op<T>>) returns (members: seq<T>)
    ensures members == Result(max, ops)
  {
    var of := new Of(blank, max);
    for i := 0 to |ops|
      invariant of.Valid() && fresh(of.repr) && of.max == max && of.contents == Result(max, ops[..i])
    {
      assert ops[..i + 1][..i] == ops[..i];
      Perform(of, ops[i]);
    }
    assert ops[..|ops|] == ops;
    members := of.ReadAll();
  }
}
