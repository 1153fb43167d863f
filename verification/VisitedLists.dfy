/** The visited sets of hnswlib_omp/visited_list_pool.h: a 16-bit epoch tag per element, and a pool of such lists. */
module VisitedLists {

  type VlType = v: int | 0 <= v < 65536

  class VisitedList {
    var curV: VlType
    const mass: array<VlType>

    /** No element carries a tag from the future.  At curV == 65535 this says nothing, so fresh memory satisfies it. */
    ghost predicate Valid()
      reads this, mass
    {
      forall i | 0 <= i < mass.Length :: mass[i] <= curV
    }

    /** The set this list stands for. */
    ghost function Marked(): (s: set<nat>)
      reads this, mass
      ensures forall i: nat :: i in s <==> i < mass.Length && mass[i] == curV
    {
      set i | 0 <= i < mass.Length && mass[i] == curV
    }

    /** The tags are left uninitialised and curV starts at (unsigned short) -1. */
    constructor (numElements: nat)
      ensures Valid() && fresh(mass) && mass.Length == numElements && curV == 65535
    {
      curV := 65535;
      mass := new VlType[numElements];
    }

    /** Starts the next epoch; when the tag wraps to 0 every element is cleared and 0 is skipped. */
    method Reset()
      requires Valid()
      modifies this, mass
      ensures Valid() && Marked() == {}
      ensures curV == if old(curV) == 65535 then 1 else old(curV) + 1
    {
      curV := (curV + 1) % 65536;
      if curV == 0 {
        for i := 0 to mass.Length
          invariant forall j | 0 <= j < i :: mass[j] == 0
          invariant curV == 0
        {
          mass[i] := 0;
        }
        curV := curV + 1;
      }
    }

    method IsMarked(i: nat) returns (b: bool)
      requires i < mass.Length
      ensures b <==> i in Marked()
    {
      b := mass[i] == curV;
    }

    method Mark(i: nat)
      requires Valid() && i < mass.Length
      modifies mass
      ensures Valid() && Marked() == old(Marked()) + {i}
    {
      mass[i] := curV;
    }
  }

  class VisitedListPool {
    const numElements: nat
    var pool: seq<VisitedList>
    /** The lists that have been handed out and not yet released. */
    ghost var lent: set<VisitedList>
    /** The pool and the lists it holds; a list on loan belongs to whoever borrowed it. */
    ghost var Repr: set<object>

    ghost predicate Valid()
      reads this, Repr
      ensures Valid() ==> this in Repr
    {
      && this in Repr
      && (forall vl | vl in pool ::
          vl in Repr && vl.mass in Repr && vl !in lent && vl.Valid() && vl.mass.Length == numElements)
      && (forall i, j | 0 <= i < j < |pool| :: pool[i] != pool[j] && pool[i].mass != pool[j].mass)
      && (forall vl | vl in lent :: vl !in Repr && vl.mass !in Repr && vl.mass.Length == numElements)
      && (forall vl, wl | vl in lent && wl in lent && vl != wl :: vl.mass != wl.mass)
    }

    constructor (initMaxPools: nat, numElements: nat)
      ensures Valid() && this.numElements == numElements && |pool| == initMaxPools && lent == {}
      ensures fresh(Repr)
    {
      this.numElements := numElements;
      pool := [];
      lent := {};
      Repr := {this};
      new;
      for i := 0 to initMaxPools
        invariant Valid() && lent == {} && |pool| == i && fresh(Repr)
      {
        var vl := new VisitedList(numElements);
        pool := [vl] + pool;
        Repr := Repr + {vl, vl.mass};
      }
    }

    /** Lends a list with nothing marked: the front of the pool, or a new one when the pool is empty. */
    method GetFreeVisitedList() returns (vl: VisitedList)
      requires Valid()
      modifies Repr
      ensures Valid() && vl.Valid() && vl.Marked() == {} && vl.mass.Length == numElements
      ensures vl !in old(lent) && lent == old(lent) + {vl}
      ensures if old(pool) == [] then fresh(vl) && fresh(vl.mass) && pool == []
          else vl == old(pool)[0] && pool == old(pool)[1..]
      ensures Repr == old(Repr) - {vl, vl.mass}
      ensures vl.mass in old(Repr) || fresh(vl.mass)
    {
      if |pool| > 0 {
        vl := pool[0];
        pool := pool[1..];
      } else {
        vl := new VisitedList(numElements);
      }
      lent := lent + {vl};
      Repr := Repr - {vl, vl.mass};
      vl.Reset();
    }

    /** Takes a lent list back, at the front of the pool. */
    method ReleaseVisitedList(vl: VisitedList)
      requires Valid() && vl in lent && vl.Valid()
      modifies this
      ensures Valid() && pool == [vl] + old(pool) && lent == old(lent) - {vl}
      ensures Repr == old(Repr) + {vl, vl.mass}
    {
      pool := [vl] + pool;
      lent := lent - {vl};
      Repr := Repr + {vl, vl.mass};
    }
  }
}
