/** array.c: a growable array used as a stack, whose elements are written through the slots it hands out. */
module ArrayStack {

  class GrowArray<T(0)> {
    var elem: array<T>
    var nelem: nat
    var nalloc: nat

    ghost predicate Valid()
      reads this
    {
      0 < nalloc == elem.Length && nelem <= nalloc
    }

    ghost function Contents(): (s: seq<T>)
      requires Valid()
      reads this, elem
      ensures |s| == nelem
    {
      elem[..nelem]
    }

    /** array_init. */
    constructor (n: nat)
      requires n != 0
      ensures Valid() && fresh(elem) && nalloc == n && Contents() == []
    {
      elem := new T[n];
      nelem := 0;
      nalloc := n;
    }

    /** array_push: a new slot on top, whatever it may hold; below it nothing changes, even if the
        elements have to move to an array of twice the size. */
    method Push() returns (slot: nat)
      requires Valid()
      modifies this
      ensures Valid() && (elem == old(elem) || fresh(elem))
      ensures slot == old(nelem) && nelem == old(nelem) + 1
      ensures Contents()[..slot] == old(Contents())
      ensures nalloc == (if old(nelem) == old(nalloc) then 2 * old(nalloc) else old(nalloc))
      ensures old(nelem) < old(nalloc) ==> elem == old(elem)
    {
      if nelem == nalloc {
        var bigger := new T[2 * nalloc];
        forall i | 0 <= i < nelem {
          bigger[i] := elem[i];
        }
        elem := bigger;
        nalloc := nalloc * 2;
      }
      slot := nelem;
      nelem := nelem + 1;
    }

    /** A write through the address of a slot. */
    method Write(slot: nat, value: T)
      requires Valid() && slot < nelem
      modifies elem
      ensures Contents() == old(Contents())[slot := value]
    {
      elem[slot] := value;
    }

    /** array_pop. */
    method Pop() returns (value: T)
      requires Valid() && nelem != 0
      modifies `nelem
      ensures Valid() && nelem == old(nelem) - 1
      ensures Contents() + [value] == old(Contents())
    {
      nelem := nelem - 1;
      value := elem[nelem];
    }

    /** array_get. */
    method Get(idx: nat) returns (value: T)
      requires Valid() && nelem != 0 && idx < nelem
      ensures value == Contents()[idx]
    {
      value := elem[idx];
    }

    /** array_top. */
    method Top() returns (value: T)
      requires Valid() && nelem != 0
      ensures value == Contents()[nelem - 1]
    {
      value := Get(nelem - 1);
    }
  }

  /** A push, a write to the new slot and a pop leave the stack as it was, and give back what was
      written, also when the push had to move the elements. */
  method PushWritePop<T(0)>(a: GrowArray<T>, x: T) returns (y: T)
    requires a.Valid()
    modifies a, a.elem
    ensures a.Valid() && y == x && a.Contents() == old(a.Contents())
  {
    var slot := a.Push();
    a.Write(slot, x);
    y := a.Pop();
  }
}
