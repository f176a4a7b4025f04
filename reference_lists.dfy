/**
  The occurrence lists as the compiler keeps them: link fields updated in
  place by `addReference` and `removeReference` (`Common.cpp`), proved
  against the list operations of module CommonReferences.
*/
module ReferenceLists {
  import opened StackElements
  import opened ModuleInfos
  import opened CommonReferences

  /**
    The occurrence lists of the stack elements: the links of every
    element, the reference slots, and, as ghost state, the linked elements,
    the group tops and the order in which elements were linked.
  */
  class OccurrenceLists {
    const elems: seq<StackElement>
    const referenceMap: ReferenceMap
    var links: Links
    ghost var linked: set<int>
    ghost var groups: seq<int>
    ghost var rank: seq<nat>
    ghost var clock: nat

    ghost predicate Valid()
      reads this
    {
      Consistent(elems, referenceMap, links, linked, groups, rank, clock)
    }

    /** The fields hold consistent lists when their values do. */
    lemma Adopt(consistent: bool)
      requires consistent && consistent == Consistent(elems, referenceMap, links, linked, groups, rank, clock)
      ensures Valid()
    {
    }

    /** No element linked, every slot empty. */
    constructor (stack: seq<StackElement>, m: ReferenceMap, numSlots: nat)
      requires m.stackMemoryBase < numSlots
      ensures Valid() && elems == stack && referenceMap == m && linked == {} && groups == []
      ensures |links.references| == numSlots && forall s | 0 <= s < numSlots :: links.references[s] == -1
    {
      elems, referenceMap := stack, m;
      links := Links(seq(|stack|, _ => -1), seq(|stack|, _ => -1), seq(|stack|, _ => -1), seq(numSlots, _ => -1));
      linked, groups, rank, clock := {}, [], seq(|stack|, _ => 0), 0;
    }

    /**
      `addReference`: a constant is ignored; any other variable becomes the
      top of its list, in stack memory the top of the group of its frame
      position, which is created in its place of the chain if missing.
    */
    method AddReference(e: int)
      requires Valid() && 0 <= e < |elems|
      requires elems[e].Constant? || (e !in linked && Member(elems, referenceMap, links, e))
      modifies this
      ensures Valid()
      ensures elems[e].Constant? ==> links == old(links) && linked == old(linked) && groups == old(groups)
      ensures !elems[e].Constant? ==>
                && TopsInStack(elems, old(groups)) && -1 <= old(links).references[Slot(elems, referenceMap, e)] < |elems|
                && links == AddedLinks(elems, referenceMap, old(links), old(groups), e)
                && linked == old(linked) + {e} && groups == AddedGroups(elems, old(groups), e)
    {
      if elems[e].Constant? {
        return;
      }
      ghost var ls, gs, rk, c := linked, groups, rank, clock;
      var st1, gs1 := LinkElement(elems, referenceMap, links, linked, groups, rank, clock, e);
      ghost var ls1, rk1, c1 := ls + {e}, rk[e := c], c + 1;
      ghost var ok := Consistent(elems, referenceMap, st1, ls1, gs1, rk1, c1);
      assert ok;
      links := st1;
      linked, groups, rank, clock := ls1, gs1, rk1, c1;
      Adopt(ok);
    }

    /**
      `removeReference`: constants, invalid elements and deferred actions
      are ignored; a variable is unlinked from its list.
    */
    method RemoveReference(e: int)
      requires Valid() && 0 <= e < |elems|
      requires elems[e].Constant? || elems[e].Invalid? || elems[e].DeferredAction? || (IsReferenced(elems[e]) && e in linked)
      modifies this
      ensures Valid()
      ensures !IsReferenced(elems[e]) ==> links == old(links) && linked == old(linked) && groups == old(groups)
      ensures IsReferenced(elems[e]) ==>
                && TopsInStack(elems, old(groups)) && LinksFit(old(links), e)
                && links == RemovedLinks(elems, referenceMap, old(links), old(groups), e)
                && linked == old(linked) - {e} && groups == RemovedGroups(elems, old(links), old(groups), e)
    {
      if !IsReferenced(elems[e]) {
        return;
      }
      ghost var ls, gs, rk, c := linked, groups, rank, clock;
      var st1, gs1 := UnlinkElement(elems, referenceMap, links, linked, groups, rank, clock, e);
      ghost var ok := Consistent(elems, referenceMap, st1, ls - {e}, gs1, rk, c);
      assert ok;
      links := st1;
      linked, groups := ls - {e}, gs1;
      Adopt(ok);
    }
  }
}
