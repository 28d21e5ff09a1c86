/** The doubly linked list under the block cache. Its abstract value is the sequence of
    its cells, front first; both chains of pointers spell exactly that sequence. */
module QcowList {
  import opened Common

  class Cell<T> {
    const value: T
    var next: Cell?<T>
    var previous: Cell?<T>

    constructor (v: T)
      ensures value == v && next == null && previous == null
    {
      value := v;
      next := null;
      previous := null;
    }
  }

  function CellAt<T>(cells: seq<Cell<T>>, i: int): Cell?<T> {
    if 0 <= i < |cells| then cells[i] else null
  }

  ghost predicate Linked<T>(cells: seq<Cell<T>>, i: nat)
    requires i < |cells|
    reads cells
  {
    cells[i].next == CellAt(cells, i + 1) && cells[i].previous == CellAt(cells, i - 1)
  }

  ghost predicate Distinct<T>(s: seq<T>) {
    forall i, j :: 0 <= i < j < |s| ==> s[i] != s[j]
  }

  /** The sequence without its element at `at`. */
  function DropAt<T>(s: seq<T>, at: nat): (r: seq<T>)
    requires at < |s|
    ensures |r| == |s| - 1
    ensures forall i :: 0 <= i < |r| ==> r[i] == s[if i < at then i else i + 1]
  {
    s[..at] + s[at + 1..]
  }

  lemma DropAtDistinct<T>(s: seq<T>, at: nat)
    requires at < |s| && Distinct(s)
    ensures Distinct(DropAt(s, at)) && s[at] !in DropAt(s, at)
  {
  }

  lemma DropAtIn<T>(s: seq<T>, at: nat)
    requires at < |s|
    ensures forall x :: x in DropAt(s, at) ==> x in s
  {
  }

  class List<T> {
    var head: Cell?<T>
    var tail: Cell?<T>
    var size: nat
    ghost var cells: seq<Cell<T>>
    ghost var Repr: set<object>

    ghost predicate Valid()
      reads this, Repr
      ensures Valid() ==> this in Repr
    {
      && this in Repr && (forall i :: 0 <= i < |cells| ==> cells[i] in Repr)
      && size == |cells| && head == CellAt(cells, 0) && tail == CellAt(cells, |cells| - 1)
      && Distinct(cells) && forall i :: 0 <= i < |cells| ==> Linked(cells, i)
    }

    constructor ()
      ensures Valid() && cells == [] && fresh(Repr)
    {
      head, tail, size, cells, Repr := null, null, 0, [], {this};
    }

    method AddRear(v: T) returns (cell: Cell<T>)
      requires Valid()
      modifies Repr
      ensures Valid() && fresh(cell) && cell.value == v && cells == old(cells) + [cell]
      ensures fresh(Repr - old(Repr)) && cell in Repr
    {
      cell := new Cell(v);
      ghost var was := cells;
      assert was != [] ==> Linked(was, |was| - 1);
      if tail == null {
        head, tail, size := cell, cell, 1;
      } else {
        tail.next := cell;
        cell.previous := tail;
        tail := cell;
        size := size + 1;
      }
      cells, Repr := cells + [cell], Repr + {cell};
      forall i | 0 <= i < |cells| ensures Linked(cells, i) {
        if i < |was| { assert old(Linked(cells, i)); }
      }
    }

    method RemoveFront() returns (v: Option<T>)
      requires Valid()
      modifies Repr
      ensures Valid() && Repr == old(Repr)
      ensures old(cells) == [] ==> v.None? && cells == []
      ensures old(cells) != [] ==> v == Some(old(cells)[0].value) && cells == old(cells)[1..]
    {
      if size == 0 { return None; }
      ghost var was := cells;
      assert Linked(was, 0);
      v := Some(head.value);
      if size == 1 {
        head, tail, size := null, null, 0;
      } else {
        head := head.next;
        head.previous := null;
        size := size - 1;
      }
      cells := cells[1..];
      forall i | 0 <= i < |cells| ensures Linked(cells, i) {
        assert old(Linked(cells, i + 1));
      }
    }

    /** Unlinks a cell of the list, wherever it is. */
    method RemoveByPointer(cell: Cell<T>, ghost at: nat) returns (v: Option<T>)
      requires Valid() && (cells != [] ==> at < |cells| && cells[at] == cell)
      modifies Repr
      ensures Valid() && Repr == old(Repr)
      ensures old(cells) == [] ==> v.None? && cells == []
      ensures old(cells) != [] ==> v == Some(cell.value) && cells == DropAt(old(cells), at)
    {
      if size == 0 { return None; }
      ghost var was := cells;
      assert Linked(was, at);
      if cell.previous != null { cell.previous.next := cell.next; } else { head := cell.next; }
      if cell.next != null { cell.next.previous := cell.previous; } else { tail := cell.previous; }
      size := size - 1;
      cells := DropAt(was, at);
      DropAtDistinct(was, at);
      forall i | 0 <= i < |cells| ensures Linked(cells, i) {
        if i < at {
          assert cells[i] == was[i] && old(Linked(cells, i));
        } else {
          assert cells[i] == was[i + 1] && old(Linked(cells, i + 1));
        }
      }
      return Some(cell.value);
    }

    /** The values, front to rear. */
    method Content() returns (result: seq<T>)
      requires Valid()
      ensures |result| == |cells| && forall i :: 0 <= i < |cells| ==> result[i] == cells[i].value
    {
      result := [];
      if size == 0 { return; }
      var item := head;
      while item.next != null
        invariant |result| < |cells| && item == cells[|result|]
        invariant forall i :: 0 <= i < |result| ==> result[i] == cells[i].value
        decreases |cells| - |result|
      {
        assert Linked(cells, |result|);
        result := result + [item.value];
        item := item.next;
      }
      assert Linked(cells, |result|);
      result := result + [tail.value];
    }
  }
}
