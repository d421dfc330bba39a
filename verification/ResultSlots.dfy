/** The slice that parallel workers fill: each worker with something to report
    claims the next free slot by incrementing a shared index. */
module ResultSlots {

  class ResultSlots<T> {
    const slots: array<T>
    var index: int

    ghost predicate Valid()
      reads this
    {
      -1 <= index < slots.Length
    }

    ghost function Claimed(): seq<T>
      requires Valid()
      reads this, slots
    {
      slots[..index + 1]
    }

    constructor (n: nat, empty: T)
      ensures Valid() && fresh(slots) && slots.Length == n
      ensures index == -1 && Claimed() == []
    {
      slots := new T[n](_ => empty);
      index := -1;
    }

    method Claim(x: T)
      requires Valid() && index + 1 < slots.Length
      modifies this, slots
      ensures Valid() && index == old(index) + 1
      ensures Claimed() == old(Claimed()) + [x]
    {
      index := index + 1;
      slots[index] := x;
    }

    method Result() returns (r: seq<T>)
      requires Valid()
      ensures r == Claimed()
    {
      r := slots[..index + 1];
    }
  }
}
