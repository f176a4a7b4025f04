/**
  The occurrence lists of the compile-time stack (`Common.cpp`:
  `addReference`, `removeReference`, `isWritableScratchReg`).

  Every copy of a variable on the stack is linked into a doubly-linked
  list through `prev` and `next`; the variable's reference slot holds the
  list's top, the highest copy. Temporary results in stack memory share
  one slot: they are grouped by stack-frame position, one list per group,
  and the groups' tops are chained through `nextLower` from the highest
  position down.

  Stack elements are positions in `elems`; -1 is the empty iterator. The
  ghost set `linked` holds the elements on a list, and the ghost sequence
  `groups` the tops of the stack-memory groups, highest position first.
*/
module CommonReferences {
  import opened UInt
  import opened StackElements
  import opened ModuleInfos
  import D = DwarfBytes

  /** The stack-frame position of a temporary result. */
  function FramePos(elems: seq<StackElement>, i: int): nat
    requires 0 <= i < |elems|
  {
    if elems[i].TempResult? then elems[i].location else 0
  }

  /** `isStackMemory` of element i. */
  predicate IsTemp(elems: seq<StackElement>, i: int) {
    0 <= i < |elems| && IsStackMemory(elems[i])
  }

  /** The reference slot of element i. */
  function Slot(elems: seq<StackElement>, m: ReferenceMap, i: int): nat
    requires 0 <= i < |elems| && IsReferenced(elems[i])
  {
    GetReferencePosition(m, elems[i])
  }

  /** The link fields of all elements, and the reference slots. */
  datatype Links = Links(prev: seq<int>, next: seq<int>, nextLower: seq<int>, references: seq<int>)

  /**
    An element that can be on a list: a variable whose slot exists, and
    whose slot is the stack-memory slot exactly when it lives in stack
    memory.
  */
  predicate Member(elems: seq<StackElement>, m: ReferenceMap, st: Links, i: int) {
    && 0 <= i < |elems| && IsReferenced(elems[i]) && Slot(elems, m, i) < |st.references|
    && (IsTemp(elems, i) <==> Slot(elems, m, i) == m.stackMemoryBase)
  }

  /** Two elements of one list: the same slot and, in stack memory, the same frame position. */
  predicate SameList(elems: seq<StackElement>, m: ReferenceMap, a: int, b: int)
    requires 0 <= a < |elems| && IsReferenced(elems[a]) && 0 <= b < |elems| && IsReferenced(elems[b])
  {
    && Slot(elems, m, a) == Slot(elems, m, b) && IsTemp(elems, a) == IsTemp(elems, b)
    && (IsTemp(elems, a) ==> FramePos(elems, a) == FramePos(elems, b))
  }

  /** The top of its list: a group top in stack memory, otherwise the element its slot holds. */
  ghost predicate IsTop(elems: seq<StackElement>, m: ReferenceMap, st: Links, groups: seq<int>, i: int)
    requires Member(elems, m, st, i)
  {
    if IsTemp(elems, i) then i in groups else st.references[Slot(elems, m, i)] == i
  }

  /** The link sequences cover the stack and the stack-memory slot exists. */
  predicate Shape(elems: seq<StackElement>, m: ReferenceMap, st: Links) {
    && |st.prev| == |elems| && |st.next| == |elems| && |st.nextLower| == |elems|
    && m.stackMemoryBase < |st.references|
  }

  /** Only variables with a slot are linked. */
  predicate Members(elems: seq<StackElement>, m: ReferenceMap, st: Links, linked: set<int>) {
    forall i | i in linked :: Member(elems, m, st, i)
  }

  /** A non-empty slot holds a linked element of that slot. */
  predicate SlotsHold(elems: seq<StackElement>, m: ReferenceMap, st: Links, linked: set<int>)
    requires Members(elems, m, st, linked)
  {
    forall s | 0 <= s < |st.references| && st.references[s] != -1 ::
      st.references[s] in linked && Slot(elems, m, st.references[s]) == s
  }

  /** A previous occurrence is linked, has the element as its next, and is on the same list. */
  predicate PrevLinks(elems: seq<StackElement>, m: ReferenceMap, st: Links, linked: set<int>)
    requires Shape(elems, m, st) && Members(elems, m, st, linked)
  {
    forall i | i in linked ::
      st.prev[i] == -1 || (st.prev[i] in linked && st.next[st.prev[i]] == i && SameList(elems, m, st.prev[i], i))
  }

  /** A next occurrence is linked and has the element as its previous. */
  predicate NextLinks(elems: seq<StackElement>, m: ReferenceMap, st: Links, linked: set<int>)
    requires Shape(elems, m, st) && Members(elems, m, st, linked)
  {
    forall i | i in linked :: st.next[i] == -1 || (st.next[i] in linked && st.prev[st.next[i]] == i)
  }

  /** An element has no next occurrence exactly when it is the top of its list. */
  ghost predicate TopsMarked(elems: seq<StackElement>, m: ReferenceMap, st: Links, linked: set<int>, groups: seq<int>)
    requires Shape(elems, m, st) && Members(elems, m, st, linked)
  {
    forall i | i in linked :: st.next[i] == -1 <==> IsTop(elems, m, st, groups, i)
  }

  /**
    The stack-memory slot holds the highest group's top, each group top
    links to the next lower one, and positions strictly decrease.
  */
  ghost predicate GroupsChained(elems: seq<StackElement>, m: ReferenceMap, st: Links, linked: set<int>, groups: seq<int>)
    requires Shape(elems, m, st)
  {
    && st.references[m.stackMemoryBase] == (if groups == [] then -1 else groups[0])
    && (forall k | 0 <= k < |groups| :: groups[k] in linked && IsTemp(elems, groups[k]))
    && (forall k | 0 <= k < |groups| :: st.nextLower[groups[k]] == if k + 1 < |groups| then groups[k + 1] else -1)
    && (forall j, k | 0 <= j < k < |groups| :: FramePos(elems, groups[j]) > FramePos(elems, groups[k]))
  }

  /**
    The lists are well formed: slots hold linked elements of that slot,
    `prev` and `next` are mutual and stay within one list, an element has
    no `next` exactly when it is the top of its list, and the groups are
    chained.
  */
  ghost predicate WellLinked(elems: seq<StackElement>, m: ReferenceMap, st: Links, linked: set<int>, groups: seq<int>) {
    && Shape(elems, m, st) && Members(elems, m, st, linked) && SlotsHold(elems, m, st, linked)
    && PrevLinks(elems, m, st, linked) && NextLinks(elems, m, st, linked)
    && TopsMarked(elems, m, st, linked, groups) && GroupsChained(elems, m, st, linked, groups)
  }

  /** Where a list's top is kept: a reference slot, or the `nextLowerTempStack` of the group above. */
  datatype Cell = Root(slot: nat) | Lower(above: int)

  predicate CellFits(st: Links, c: Cell) {
    match c
    case Root(s) => s < |st.references|
    case Lower(t) => 0 <= t < |st.nextLower|
  }

  /** The cell of the k-th group: the stack-memory slot for the highest, else the group above. */
  function CellAt(groups: seq<int>, stackSlot: nat, k: nat): Cell
    requires k <= |groups|
  {
    if k == 0 then Root(stackSlot) else Lower(groups[k - 1])
  }

  function ReadCell(st: Links, c: Cell): int
    requires CellFits(st, c)
  {
    match c
    case Root(s) => st.references[s]
    case Lower(t) => st.nextLower[t]
  }

  function WriteCell(st: Links, c: Cell, v: int): (r: Links)
    requires CellFits(st, c)
    ensures CellFits(r, c) && ReadCell(r, c) == v
  {
    match c
    case Root(s) => st.(references := st.references[s := v])
    case Lower(t) => st.(nextLower := st.nextLower[t := v])
  }

  /** Links of element e and its neighbours are iterators of the stack. */
  predicate LinksFit(st: Links, e: int) {
    && 0 <= e < |st.prev| == |st.next| <= |st.nextLower|
    && -1 <= st.prev[e] < |st.prev| && -1 <= st.next[e] < |st.next|
  }

  /**
    The common tail of `addReference`: e gets no next occurrence, the old
    top `top` (or -1) as its previous one, the old top gets e as its next,
    and the cell now names e.
  */
  function PushOnto(st: Links, c: Cell, e: int, top: int): Links
    requires 0 <= e < |st.prev| == |st.next| && -1 <= top < |st.next| && CellFits(st, c)
  {
    var next1 := st.next[e := -1];
    WriteCell(st.(prev := st.prev[e := top], next := if top == -1 then next1 else next1[top := e]), c, e)
  }

  /**
    `removeReference` once the cell of e's list is found: the only element
    hands the cell on (to the next lower group in stack memory); otherwise
    e is spliced out and, when it was the top, its predecessor takes over
    the cell and, in stack memory, the link to the next lower group.
  */
  function Unlink(st: Links, c: Cell, e: int, temp: bool): Links
    requires LinksFit(st, e) && CellFits(st, c)
  {
    var p, n := st.prev[e], st.next[e];
    if p == -1 && n == -1 then
      WriteCell(st, c, if temp then st.nextLower[e] else -1)
    else
      var st1 := st.(prev := if n != -1 then st.prev[n := p] else st.prev,
                     next := if p != -1 then st.next[p := n] else st.next);
      if ReadCell(st, c) != e then st1
      else if temp && p != -1 then WriteCell(st1.(nextLower := st1.nextLower[p := st.nextLower[e]]), c, p)
      else WriteCell(st1, c, p)
  }

  /** The group tops are elements of the stack. */
  predicate GroupsFit(st: Links, groups: seq<int>) {
    forall j | 0 <= j < |groups| :: 0 <= groups[j] < |st.nextLower|
  }

  /** `addReference` of a temporary e whose frame position is that of the k-th group: e becomes that group's top. */
  function JoinGroup(st: Links, groups: seq<int>, stackSlot: nat, e: int, k: nat): Links
    requires 0 <= e < |st.prev| == |st.next| == |st.nextLower| && stackSlot < |st.references|
    requires k < |groups| && GroupsFit(st, groups)
  {
    var t := groups[k];
    PushOnto(st.(nextLower := st.nextLower[e := st.nextLower[t]]), CellAt(groups, stackSlot, k), e, t)
  }

  /** `addReference` of a temporary e that starts a new group in front of the k-th one (or last, for k == |groups|). */
  function NewGroup(st: Links, groups: seq<int>, stackSlot: nat, e: int, k: nat): Links
    requires 0 <= e < |st.prev| == |st.next| == |st.nextLower| && stackSlot < |st.references|
    requires k <= |groups| && GroupsFit(st, groups)
  {
    var below := if k < |groups| then groups[k] else -1;
    PushOnto(st.(nextLower := st.nextLower[e := below]), CellAt(groups, stackSlot, k), e, -1)
  }

  /** Groups of stack memory have distinct tops. */
  lemma GroupsDistinct(elems: seq<StackElement>, m: ReferenceMap, st: Links, linked: set<int>, groups: seq<int>, j: int, k: int)
    requires WellLinked(elems, m, st, linked, groups)
    requires 0 <= j < |groups| && 0 <= k < |groups| && j != k
    ensures groups[j] != groups[k]
  {
    if j < k {
      assert FramePos(elems, groups[j]) > FramePos(elems, groups[k]);
    } else {
      assert FramePos(elems, groups[k]) > FramePos(elems, groups[j]);
    }
  }

  /** Pushing a variable outside stack memory onto the top of its list keeps the lists well formed. */
  lemma AddPlainValid(elems: seq<StackElement>, m: ReferenceMap, st: Links, linked: set<int>, groups: seq<int>, e: int)
    requires WellLinked(elems, m, st, linked, groups)
    requires e !in linked && Member(elems, m, st, e) && !IsTemp(elems, e)
    ensures WellLinked(elems, m, PushOnto(st, Root(Slot(elems, m, e)), e, st.references[Slot(elems, m, e)]), linked + {e}, groups)
  {
    var s := Slot(elems, m, e);
    var t := st.references[s];
    var st' := PushOnto(st, Root(s), e, t);
    assert t != -1 ==> t in linked && Slot(elems, m, t) == s && !IsTemp(elems, t) && st.next[t] == -1;
    PushKeepsLinks(elems, m, st, linked, e, t, Root(s), st.nextLower, st');
    AddPlainTops(elems, m, st, linked, groups, e, t, st');
  }

  /**
    Pushing e onto a list whose top t (or -1) it extends keeps the slots
    and the occurrence links well formed, whatever `nextLower` becomes.
  */
  lemma PushKeepsLinks(elems: seq<StackElement>, m: ReferenceMap, st: Links, linked: set<int>, e: int, t: int, c: Cell,
                       nl1: seq<int>, st': Links)
    requires Shape(elems, m, st) && Members(elems, m, st, linked) && SlotsHold(elems, m, st, linked)
    requires PrevLinks(elems, m, st, linked) && NextLinks(elems, m, st, linked)
    requires e !in linked && Member(elems, m, st, e)
    requires t == -1 || (t in linked && st.next[t] == -1 && SameList(elems, m, t, e))
    requires c.Root? ==> c.slot == Slot(elems, m, e)
    requires c.Lower? ==> 0 <= c.above < |elems|
    requires |nl1| == |elems| && st' == PushOnto(st.(nextLower := nl1), c, e, t)
    ensures Shape(elems, m, st') && Members(elems, m, st', linked + {e}) && SlotsHold(elems, m, st', linked + {e})
    ensures PrevLinks(elems, m, st', linked + {e}) && NextLinks(elems, m, st', linked + {e})
  {
    var linked' := linked + {e};
    forall i | i in linked'
      ensures st'.prev[i] == -1 || (st'.prev[i] in linked' && st'.next[st'.prev[i]] == i && SameList(elems, m, st'.prev[i], i))
    {
      if i != e && st.prev[i] != -1 {
        assert st.prev[i] != t;
      }
    }
  }

  lemma AddPlainTops(elems: seq<StackElement>, m: ReferenceMap, st: Links, linked: set<int>, groups: seq<int>, e: int, t: int, st': Links)
    requires Shape(elems, m, st) && Members(elems, m, st, linked) && TopsMarked(elems, m, st, linked, groups)
    requires e !in linked && Member(elems, m, st, e) && !IsTemp(elems, e) && t == st.references[Slot(elems, m, e)]
    requires t != -1 ==> t in linked && Slot(elems, m, t) == Slot(elems, m, e)
    requires st' == PushOnto(st, Root(Slot(elems, m, e)), e, t)
    ensures Members(elems, m, st', linked + {e}) && TopsMarked(elems, m, st', linked + {e}, groups)
  {
    forall i | i in linked + {e}
      ensures st'.next[i] == -1 <==> IsTop(elems, m, st', groups, i)
    {
      if i != e && i != t && !IsTemp(elems, i) {
        assert st'.references[Slot(elems, m, i)] == i <==> st.references[Slot(elems, m, i)] == i;
      }
    }
  }

  /** A temporary whose frame position has a group becomes that group's top; the lists stay well formed. */
  lemma AddJoinValid(elems: seq<StackElement>, m: ReferenceMap, st: Links, linked: set<int>, groups: seq<int>, e: int, k: nat)
    requires WellLinked(elems, m, st, linked, groups)
    requires e !in linked && Member(elems, m, st, e) && IsTemp(elems, e)
    requires k < |groups| && FramePos(elems, groups[k]) == FramePos(elems, e)
    ensures GroupsFit(st, groups)
    ensures WellLinked(elems, m, JoinGroup(st, groups, m.stackMemoryBase, e, k), linked + {e}, groups[k := e])
  {
    var t := groups[k];
    var st' := JoinGroup(st, groups, m.stackMemoryBase, e, k);
    assert t in linked && IsTemp(elems, t) && IsTop(elems, m, st, groups, t);
    PushKeepsLinks(elems, m, st, linked, e, t, CellAt(groups, m.stackMemoryBase, k), st.nextLower[e := st.nextLower[t]], st');
    forall j | 0 <= j < |groups| && j != k
      ensures groups[j] != t
    {
      GroupsDistinct(elems, m, st, linked, groups, j, k);
    }
    JoinTops(elems, m, st, linked, groups, e, k, st');
    JoinChained(elems, m, st, linked, groups, e, k, st');
  }

  lemma JoinTops(elems: seq<StackElement>, m: ReferenceMap, st: Links, linked: set<int>, groups: seq<int>, e: int, k: nat, st': Links)
    requires Shape(elems, m, st) && Members(elems, m, st, linked) && TopsMarked(elems, m, st, linked, groups)
    requires GroupsFit(st, groups) && k < |groups| && groups[k] in linked && IsTemp(elems, groups[k])
    requires e !in linked && Member(elems, m, st, e) && IsTemp(elems, e)
    requires forall j | 0 <= j < |groups| && j != k :: groups[j] != groups[k]
    requires st' == JoinGroup(st, groups, m.stackMemoryBase, e, k)
    ensures Members(elems, m, st', linked + {e}) && TopsMarked(elems, m, st', linked + {e}, groups[k := e])
  {
    var t := groups[k];
    var g' := groups[k := e];
    assert t !in g' by {
      forall j | 0 <= j < |g'| ensures g'[j] != t {
      }
    }
    assert Members(elems, m, st', linked + {e});
    assert t in linked && st.next[t] == -1;
    assert st'.next == st.next[e := -1][t := e];
    forall i | i in linked + {e}
      ensures st'.next[i] == -1 <==> IsTop(elems, m, st', groups[k := e], i)
    {
      if i == e {
        assert groups[k := e][k] == e;
      } else if i == t {
        assert IsTemp(elems, t);
      } else {
        if IsTemp(elems, i) {
          assert i in groups[k := e] <==> i in groups by {
            if i in groups {
              var j :| 0 <= j < |groups| && groups[j] == i;
              assert groups[k := e][j] == i;
            }
            if i in groups[k := e] {
              var j :| 0 <= j < |groups| && groups[k := e][j] == i;
              assert groups[j] == i;
            }
          }
        } else {
          assert Slot(elems, m, i) != m.stackMemoryBase;
          assert st'.references[Slot(elems, m, i)] == st.references[Slot(elems, m, i)];
        }
      }
    }
  }

  lemma JoinChained(elems: seq<StackElement>, m: ReferenceMap, st: Links, linked: set<int>, groups: seq<int>, e: int, k: nat,
                    st': Links)
    requires Shape(elems, m, st) && Members(elems, m, st, linked) && GroupsChained(elems, m, st, linked, groups)
    requires e !in linked && Member(elems, m, st, e) && IsTemp(elems, e)
    requires GroupsFit(st, groups) && k < |groups| && FramePos(elems, groups[k]) == FramePos(elems, e)
    requires forall j | 0 <= j < |groups| && j != k :: groups[j] != groups[k]
    requires st' == JoinGroup(st, groups, m.stackMemoryBase, e, k)
    ensures Shape(elems, m, st') && GroupsChained(elems, m, st', linked + {e}, groups[k := e])
  {
    var g' := groups[k := e];
    var t := groups[k];
    var nl1 := st.nextLower[e := st.nextLower[t]];
    assert st'.references[m.stackMemoryBase] == if k == 0 then e else st.references[m.stackMemoryBase];
    assert st'.nextLower == if k == 0 then nl1 else nl1[groups[k - 1] := e];
    forall j | 0 <= j < |g'|
      ensures st'.nextLower[g'[j]] == if j + 1 < |g'| then g'[j + 1] else -1
    {
      assert groups[j] in linked;
      if j == k {
        assert g'[j] == e;
        if k > 0 {
          assert groups[k - 1] in linked;
        }
        assert st'.nextLower[e] == st.nextLower[t];
        assert st.nextLower[groups[k]] == if k + 1 < |groups| then groups[k + 1] else -1;
        assert k + 1 < |g'| ==> g'[k + 1] == groups[k + 1];
      } else if j == k - 1 {
        assert st'.nextLower[groups[k - 1]] == e;
        assert g'[j + 1] == e;
      } else {
        assert st.nextLower[groups[j]] == if j + 1 < |groups| then groups[j + 1] else -1;
        assert j + 1 < |g'| ==> g'[j + 1] == groups[j + 1];
        assert g'[j] == groups[j];
        assert groups[j] != groups[k];
        assert groups[j] != e;
        if k > 0 {
          if j < k - 1 {
            assert FramePos(elems, groups[j]) > FramePos(elems, groups[k - 1]);
          } else {
            assert FramePos(elems, groups[k - 1]) > FramePos(elems, groups[j]);
          }
        }
        assert st'.nextLower[groups[j]] == st.nextLower[groups[j]];
      }
    }
    forall i, j | 0 <= i < j < |g'|
      ensures FramePos(elems, g'[i]) > FramePos(elems, g'[j])
    {
      assert FramePos(elems, groups[i]) > FramePos(elems, groups[j]);
    }
    assert st'.references[m.stackMemoryBase] == g'[0];
    assert forall j | 0 <= j < |g'| :: g'[j] in linked + {e} && IsTemp(elems, g'[j]);
    assert GroupsChained(elems, m, st', linked + {e}, g');
  }

  /** A temporary whose frame position has no group starts one in order; the lists stay well formed. */
  lemma AddNewGroupValid(elems: seq<StackElement>, m: ReferenceMap, st: Links, linked: set<int>, groups: seq<int>, e: int, k: nat)
    requires WellLinked(elems, m, st, linked, groups)
    requires e !in linked && Member(elems, m, st, e) && IsTemp(elems, e)
    requires k <= |groups| && (forall j | 0 <= j < k :: FramePos(elems, groups[j]) > FramePos(elems, e))
    requires k < |groups| ==> FramePos(elems, groups[k]) < FramePos(elems, e)
    ensures GroupsFit(st, groups)
    ensures WellLinked(elems, m, NewGroup(st, groups, m.stackMemoryBase, e, k), linked + {e}, groups[..k] + [e] + groups[k..])
  {
    var below := if k < |groups| then groups[k] else -1;
    var st' := NewGroup(st, groups, m.stackMemoryBase, e, k);
    PushKeepsLinks(elems, m, st, linked, e, -1, CellAt(groups, m.stackMemoryBase, k), st.nextLower[e := below], st');
    NewGroupTops(elems, m, st, linked, groups, e, k, st');
    NewGroupChained(elems, m, st, linked, groups, e, k, st');
  }

  lemma NewGroupTops(elems: seq<StackElement>, m: ReferenceMap, st: Links, linked: set<int>, groups: seq<int>, e: int, k: nat,
                     st': Links)
    requires Shape(elems, m, st) && Members(elems, m, st, linked) && TopsMarked(elems, m, st, linked, groups)
    requires GroupsFit(st, groups) && k <= |groups|
    requires e !in linked && Member(elems, m, st, e) && IsTemp(elems, e)
    requires st' == NewGroup(st, groups, m.stackMemoryBase, e, k)
    ensures Members(elems, m, st', linked + {e}) && TopsMarked(elems, m, st', linked + {e}, groups[..k] + [e] + groups[k..])
  {
    var g' := groups[..k] + [e] + groups[k..];
    assert e in g' by {
      assert g'[k] == e;
    }
    forall i | i in linked + {e}
      ensures st'.next[i] == -1 <==> IsTop(elems, m, st', g', i)
    {
      if i != e {
        if IsTemp(elems, i) {
          assert i in g' <==> i in groups by {
            if i in groups {
              var j :| 0 <= j < |groups| && groups[j] == i;
              assert g'[if j < k then j else j + 1] == i;
            }
            if i in g' {
              var j :| 0 <= j < |g'| && g'[j] == i;
              assert groups[if j < k then j else j - 1] == i;
            }
          }
        } else {
          assert st'.references[Slot(elems, m, i)] == st.references[Slot(elems, m, i)];
        }
      }
    }
  }

  lemma NewGroupChained(elems: seq<StackElement>, m: ReferenceMap, st: Links, linked: set<int>, groups: seq<int>, e: int, k: nat,
                        st': Links)
    requires Shape(elems, m, st) && Members(elems, m, st, linked) && GroupsChained(elems, m, st, linked, groups)
    requires e !in linked && Member(elems, m, st, e) && IsTemp(elems, e)
    requires GroupsFit(st, groups) && k <= |groups|
    requires (forall j | 0 <= j < k :: FramePos(elems, groups[j]) > FramePos(elems, e))
    requires k < |groups| ==> FramePos(elems, groups[k]) < FramePos(elems, e)
    requires st' == NewGroup(st, groups, m.stackMemoryBase, e, k)
    ensures Shape(elems, m, st') && GroupsChained(elems, m, st', linked + {e}, groups[..k] + [e] + groups[k..])
  {
    var g' := groups[..k] + [e] + groups[k..];
    InsertAt(groups, e, k);
    var below := if k < |groups| then groups[k] else -1;
    assert st'.references[m.stackMemoryBase] == if k == 0 then e else st.references[m.stackMemoryBase];
    assert st'.nextLower == if k == 0 then st.nextLower[e := below] else st.nextLower[e := below][groups[k - 1] := e];
    forall q | 0 <= q < |groups| ensures 0 <= groups[q] < |elems| && groups[q] != e {
      assert IsTemp(elems, groups[q]) && groups[q] in linked;
    }
    ChainInsert(elems, st.nextLower, st'.nextLower, groups, e, k, g');
    NewGroupOrder(elems, groups, e, k);
    assert st'.references[m.stackMemoryBase] == if g' == [] then -1 else g'[0];
    assert forall j | 0 <= j < |g'| :: g'[j] in linked + {e} && IsTemp(elems, g'[j]);
    assert GroupsChained(elems, m, st', linked + {e}, g');
  }

  /**
    In a chain ordered by frame position, inserting e at position k (its
    next is the old element k, and element k-1 now points at it) leaves a
    chain of all of them.
  */
  lemma ChainInsert(elems: seq<StackElement>, next: seq<int>, next': seq<int>, groups: seq<int>, e: int, k: nat, g': seq<int>)
    requires k <= |groups| && g' == groups[..k] + [e] + groups[k..] && 0 <= e < |next|
    requires forall q | 0 <= q < |groups| :: 0 <= groups[q] < |elems| && groups[q] < |next| && groups[q] != e
    requires forall q | 0 <= q < |groups| :: next[groups[q]] == if q + 1 < |groups| then groups[q + 1] else -1
    requires forall i, j | 0 <= i < j < |groups| :: FramePos(elems, groups[i]) > FramePos(elems, groups[j])
    requires next' == var n1 := next[e := if k < |groups| then groups[k] else -1];
                      if k == 0 then n1 else n1[groups[k - 1] := e]
    ensures forall j | 0 <= j < |g'| :: next'[g'[j]] == if j + 1 < |g'| then g'[j + 1] else -1
  {
    InsertAt(groups, e, k);
    forall j | 0 <= j < |g'|
      ensures next'[g'[j]] == if j + 1 < |g'| then g'[j + 1] else -1
    {
      if j < k - 1 {
        assert g'[j] == groups[j] && g'[j + 1] == groups[j + 1];
        assert FramePos(elems, groups[j]) > FramePos(elems, groups[k - 1]);
        assert next'[groups[j]] == next[groups[j]];
        assert next'[g'[j]] == if j + 1 < |g'| then g'[j + 1] else -1; // A
      } else if j == k - 1 {
        assert g'[j] == groups[k - 1] && g'[j + 1] == e;
        assert next'[g'[j]] == if j + 1 < |g'| then g'[j + 1] else -1; // B
      } else if j == k {
        assert g'[j] == e;
        assert next'[e] == if k < |groups| then groups[k] else -1;
        if k < |groups| {
          assert g'[k + 1] == groups[k];
        }
        assert next'[g'[j]] == if j + 1 < |g'| then g'[j + 1] else -1; // C
      } else {
        assert g'[j] == groups[j - 1];
        if k > 0 {
          assert FramePos(elems, groups[k - 1]) > FramePos(elems, groups[j - 1]);
        }
        assert next'[groups[j - 1]] == next[groups[j - 1]];
        if j < |groups| {
          assert g'[j + 1] == groups[j];
        }
        assert next'[g'[j]] == if j + 1 < |g'| then g'[j + 1] else -1; // D
      }
    }
  }

  /** The elements of a sequence with one element inserted at k. */
  lemma InsertAt(s: seq<int>, x: int, k: nat)
    requires k <= |s|
    ensures |s[..k] + [x] + s[k..]| == |s| + 1
    ensures forall j | 0 <= j < |s| + 1 :: (s[..k] + [x] + s[k..])[j] == if j < k then s[j] else if j == k then x else s[j - 1]
  {
  }

  /** Inserting e between the groups above and below its frame position keeps positions strictly decreasing. */
  lemma NewGroupOrder(elems: seq<StackElement>, groups: seq<int>, e: int, k: nat)
    requires 0 <= e < |elems| && k <= |groups| && (forall j | 0 <= j < |groups| :: 0 <= groups[j] < |elems|)
    requires forall i, j | 0 <= i < j < |groups| :: FramePos(elems, groups[i]) > FramePos(elems, groups[j])
    requires forall j | 0 <= j < k :: FramePos(elems, groups[j]) > FramePos(elems, e)
    requires k < |groups| ==> FramePos(elems, groups[k]) < FramePos(elems, e)
    ensures forall i, j | 0 <= i < j < |groups| + 1 ::
      FramePos(elems, (groups[..k] + [e] + groups[k..])[i]) > FramePos(elems, (groups[..k] + [e] + groups[k..])[j])
  {
    var g' := groups[..k] + [e] + groups[k..];
    InsertAt(groups, e, k);
    forall i, j | 0 <= i < j < |g'|
      ensures FramePos(elems, g'[i]) > FramePos(elems, g'[j])
    {
      if i < k && k < j {
        assert FramePos(elems, groups[i]) > FramePos(elems, e);
        assert FramePos(elems, e) > FramePos(elems, groups[k]);
        if j - 1 > k {
          assert FramePos(elems, groups[k]) > FramePos(elems, groups[j - 1]);
        }
      } else if i == k && k < j {
        if j - 1 > k {
          assert FramePos(elems, groups[k]) > FramePos(elems, groups[j - 1]);
        }
      } else if i < k && j == k {
      } else if i < k {
        assert FramePos(elems, groups[i]) > FramePos(elems, groups[j]);
      } else {
        assert FramePos(elems, groups[i - 1]) > FramePos(elems, groups[j - 1]);
      }
    }
  }

  /**
    A ghost order on the linked elements: each element's previous
    occurrence was linked before it, and every rank is below the clock.
  */
  predicate Ranked(st: Links, linked: set<int>, rank: seq<nat>, clock: nat) {
    && |rank| == |st.prev|
    && forall i | i in linked :: 0 <= i < |rank| && rank[i] < clock
                                 && (0 <= st.prev[i] < |rank| ==> rank[st.prev[i]] < rank[i])
  }

  /** Following next occurrences from a linked element ends at the top of its list. */
  lemma {:induction false} ReachesTop(elems: seq<StackElement>, m: ReferenceMap, st: Links, linked: set<int>, groups: seq<int>,
                                      rank: seq<nat>, clock: nat, i: int) returns (t: int)
    requires WellLinked(elems, m, st, linked, groups) && Ranked(st, linked, rank, clock) && i in linked
    ensures t in linked && IsTop(elems, m, st, groups, t) && SameList(elems, m, i, t)
    ensures t != i ==> st.prev[t] != -1
    decreases clock - rank[i]
  {
    if st.next[i] == -1 {
      t := i;
    } else {
      var n := st.next[i];
      assert n in linked && st.prev[n] == i;
      assert SameList(elems, m, i, n);
      t := ReachesTop(elems, m, st, linked, groups, rank, clock, n);
    }
  }

  /** Every linked temporary result has a group at its frame position. */
  lemma GroupOf(elems: seq<StackElement>, m: ReferenceMap, st: Links, linked: set<int>, groups: seq<int>,
                rank: seq<nat>, clock: nat, i: int) returns (k: nat)
    requires WellLinked(elems, m, st, linked, groups) && Ranked(st, linked, rank, clock) && i in linked && IsTemp(elems, i)
    ensures k < |groups| && FramePos(elems, groups[k]) == FramePos(elems, i)
  {
    var t := ReachesTop(elems, m, st, linked, groups, rank, clock, i);
    k :| 0 <= k < |groups| && groups[k] == t;
  }

  /**
    The index of the first group whose frame position is not above fp,
    searching from group j: where a temporary result at fp belongs.
  */
  function GroupIndex(elems: seq<StackElement>, groups: seq<int>, fp: nat, j: nat): (k: nat)
    requires j <= |groups| && forall i | 0 <= i < |groups| :: 0 <= groups[i] < |elems|
    ensures j <= k <= |groups|
    ensures forall i | j <= i < k :: FramePos(elems, groups[i]) > fp
    ensures k < |groups| ==> FramePos(elems, groups[k]) <= fp
    decreases |groups| - j
  {
    if j == |groups| || FramePos(elems, groups[j]) <= fp then j else GroupIndex(elems, groups, fp, j + 1)
  }

  /** The search stops at the first group not above fp, wherever that is. */
  lemma {:induction false} GroupIndexAt(elems: seq<StackElement>, groups: seq<int>, fp: nat, j: nat, k: nat)
    requires j <= k <= |groups| && forall i | 0 <= i < |groups| :: 0 <= groups[i] < |elems|
    requires forall i | j <= i < k :: FramePos(elems, groups[i]) > fp
    requires k < |groups| ==> FramePos(elems, groups[k]) <= fp
    ensures GroupIndex(elems, groups, fp, j) == k
    decreases k - j
  {
    if j < k {
      GroupIndexAt(elems, groups, fp, j + 1, k);
    }
  }

  /** The group tops are elements of the stack. */
  predicate TopsInStack(elems: seq<StackElement>, groups: seq<int>) {
    forall i | 0 <= i < |groups| :: 0 <= groups[i] < |elems|
  }

  /** Whether element e's frame position already has a group, and where its group is or goes. */
  function JoinsAt(elems: seq<StackElement>, groups: seq<int>, e: int): (r: (bool, nat))
    requires 0 <= e < |elems| && TopsInStack(elems, groups)
    ensures r.1 <= |groups| && (r.0 <==> r.1 < |groups| && FramePos(elems, groups[r.1]) == FramePos(elems, e))
  {
    var k := GroupIndex(elems, groups, FramePos(elems, e), 0);
    (k < |groups| && FramePos(elems, groups[k]) == FramePos(elems, e), k)
  }

  /**
    `addReference` of a variable e: a variable outside stack memory goes on
    top of its slot's list; a temporary result in stack memory goes on top
    of the group of its frame position, or starts a new group where the
    chain's positions say.
  */
  ghost function AddedLinks(elems: seq<StackElement>, m: ReferenceMap, st: Links, groups: seq<int>, e: int): Links
    requires Shape(elems, m, st) && Member(elems, m, st, e) && TopsInStack(elems, groups)
    requires -1 <= st.references[Slot(elems, m, e)] < |elems|
  {
    if !IsTemp(elems, e) then PushOnto(st, Root(Slot(elems, m, e)), e, st.references[Slot(elems, m, e)])
    else
      var (join, k) := JoinsAt(elems, groups, e);
      if join then JoinGroup(st, groups, m.stackMemoryBase, e, k) else NewGroup(st, groups, m.stackMemoryBase, e, k)
  }

  /** The group tops after `addReference` of e. */
  ghost function AddedGroups(elems: seq<StackElement>, groups: seq<int>, e: int): seq<int>
    requires 0 <= e < |elems| && TopsInStack(elems, groups)
  {
    if !IsTemp(elems, e) then groups
    else
      var (join, k) := JoinsAt(elems, groups, e);
      if join then groups[k := e] else groups[..k] + [e] + groups[k..]
  }

  /** The element e was on top of before `addReference`: its new previous occurrence. */
  ghost function OldTop(elems: seq<StackElement>, m: ReferenceMap, st: Links, groups: seq<int>, e: int): int
    requires Shape(elems, m, st) && Member(elems, m, st, e) && TopsInStack(elems, groups)
    requires -1 <= st.references[Slot(elems, m, e)] < |elems|
  {
    if !IsTemp(elems, e) then st.references[Slot(elems, m, e)]
    else
      var (join, k) := JoinsAt(elems, groups, e);
      if join then groups[k] else -1
  }

  /** The slots and groups of well-formed lists name elements of the stack. */
  lemma InStack(elems: seq<StackElement>, m: ReferenceMap, st: Links, linked: set<int>, groups: seq<int>, e: int)
    requires WellLinked(elems, m, st, linked, groups) && Member(elems, m, st, e)
    ensures TopsInStack(elems, groups) && -1 <= st.references[Slot(elems, m, e)] < |elems|
  {
    forall i | 0 <= i < |groups| ensures 0 <= groups[i] < |elems| {
      assert groups[i] in linked;
    }
  }

  /** `addReference` keeps the lists well formed. */
  lemma AddReferenceValid(elems: seq<StackElement>, m: ReferenceMap, st: Links, linked: set<int>, groups: seq<int>, e: int)
    requires WellLinked(elems, m, st, linked, groups)
    requires e !in linked && Member(elems, m, st, e)
    ensures TopsInStack(elems, groups) && -1 <= st.references[Slot(elems, m, e)] < |elems|
    ensures WellLinked(elems, m, AddedLinks(elems, m, st, groups, e), linked + {e}, AddedGroups(elems, groups, e))
  {
    InStack(elems, m, st, linked, groups, e);
    if !IsTemp(elems, e) {
      AddPlainValid(elems, m, st, linked, groups, e);
    } else {
      var (join, k) := JoinsAt(elems, groups, e);
      if join {
        AddJoinValid(elems, m, st, linked, groups, e, k);
      } else {
        AddNewGroupValid(elems, m, st, linked, groups, e, k);
      }
    }
  }

  /**
    `addReference` makes e the top of its list: no next occurrence, the
    old top as its previous one, and e as the old top's next one.
  */
  lemma AddReferenceTop(elems: seq<StackElement>, m: ReferenceMap, st: Links, linked: set<int>, groups: seq<int>, e: int)
    requires WellLinked(elems, m, st, linked, groups)
    requires e !in linked && Member(elems, m, st, e)
    ensures TopsInStack(elems, groups) && -1 <= st.references[Slot(elems, m, e)] < |elems|
    ensures Member(elems, m, AddedLinks(elems, m, st, groups, e), e)
    ensures IsTop(elems, m, AddedLinks(elems, m, st, groups, e), AddedGroups(elems, groups, e), e)
    ensures AddedLinks(elems, m, st, groups, e).next[e] == -1
    ensures AddedLinks(elems, m, st, groups, e).prev[e] == OldTop(elems, m, st, groups, e)
    ensures OldTop(elems, m, st, groups, e) != -1 ==> AddedLinks(elems, m, st, groups, e).next[OldTop(elems, m, st, groups, e)] == e
  {
    InStack(elems, m, st, linked, groups, e);
    if !IsTemp(elems, e) {
      var t := st.references[Slot(elems, m, e)];
      assert t != -1 ==> t in linked;
      PushOntoTop(st, Root(Slot(elems, m, e)), e, t);
    } else {
      var (join, k) := JoinsAt(elems, groups, e);
      var c := CellAt(groups, m.stackMemoryBase, k);
      if join {
        var t := groups[k];
        assert t in linked;
        PushOntoTop(st.(nextLower := st.nextLower[e := st.nextLower[t]]), c, e, t);
        assert AddedGroups(elems, groups, e)[k] == e;
      } else {
        var below := if k < |groups| then groups[k] else -1;
        PushOntoTop(st.(nextLower := st.nextLower[e := below]), c, e, -1);
        InsertAt(groups, e, k);
      }
    }
  }

  /** Pushing e onto a top other than itself links the two and leaves e in the cell. */
  lemma PushOntoTop(st: Links, c: Cell, e: int, top: int)
    requires 0 <= e < |st.prev| == |st.next| && -1 <= top < |st.next| && CellFits(st, c) && top != e
    ensures |PushOnto(st, c, e, top).references| == |st.references|
    ensures PushOnto(st, c, e, top).next[e] == -1 && PushOnto(st, c, e, top).prev[e] == top
    ensures top != -1 ==> PushOnto(st, c, e, top).next[top] == e
    ensures ReadCell(PushOnto(st, c, e, top), c) == e
  {
  }

  /** `addReference` changes only e's previous occurrence. */
  lemma AddedPrev(elems: seq<StackElement>, m: ReferenceMap, st: Links, linked: set<int>, groups: seq<int>, e: int)
    requires WellLinked(elems, m, st, linked, groups)
    requires e !in linked && Member(elems, m, st, e)
    ensures TopsInStack(elems, groups) && -1 <= st.references[Slot(elems, m, e)] < |elems|
    ensures AddedLinks(elems, m, st, groups, e).prev == st.prev[e := OldTop(elems, m, st, groups, e)]
    ensures OldTop(elems, m, st, groups, e) == -1 || OldTop(elems, m, st, groups, e) in linked
  {
    InStack(elems, m, st, linked, groups, e);
    if IsTemp(elems, e) {
      var (join, k) := JoinsAt(elems, groups, e);
      if join {
        assert groups[k] in linked;
      }
    }
  }

  /** Linking e last, after an older element t (or none), keeps the ranks. */
  lemma RankedPush(st: Links, st': Links, linked: set<int>, rank: seq<nat>, clock: nat, e: int, t: int)
    requires Ranked(st, linked, rank, clock) && 0 <= e < |rank| && e !in linked
    requires PrevLinked(st, linked) && st'.prev == st.prev[e := t] && (t == -1 || t in linked)
    ensures Ranked(st', linked + {e}, rank[e := clock], clock + 1)
  {
    forall i | i in linked + {e}
      ensures rank[e := clock][i] < clock + 1
      ensures 0 <= st'.prev[i] < |rank| ==> rank[e := clock][st'.prev[i]] < rank[e := clock][i]
    {
      if i != e && st.prev[i] != -1 {
        assert st.prev[i] in linked;
      }
    }
  }

  /** A linked element's previous occurrence is linked. */
  predicate PrevLinked(st: Links, linked: set<int>) {
    forall i | i in linked :: 0 <= i < |st.prev| && (st.prev[i] == -1 || st.prev[i] in linked)
  }

  /** `addReference` keeps the ranks: e is linked last. */
  lemma AddReferenceRanked(elems: seq<StackElement>, m: ReferenceMap, st: Links, linked: set<int>, groups: seq<int>,
                           rank: seq<nat>, clock: nat, e: int)
    requires WellLinked(elems, m, st, linked, groups) && Ranked(st, linked, rank, clock)
    requires e !in linked && Member(elems, m, st, e)
    ensures TopsInStack(elems, groups) && -1 <= st.references[Slot(elems, m, e)] < |elems|
    ensures Ranked(AddedLinks(elems, m, st, groups, e), linked + {e}, rank[e := clock], clock + 1)
  {
    AddedPrev(elems, m, st, linked, groups, e);
    RankedPush(st, AddedLinks(elems, m, st, groups, e), linked, rank, clock, e, OldTop(elems, m, st, groups, e));
  }
  /** Where e's list is kept: its slot, or in stack memory the cell of the group at its frame position. */
  ghost function CellOf(elems: seq<StackElement>, m: ReferenceMap, groups: seq<int>, e: int): Cell
    requires 0 <= e < |elems| && IsReferenced(elems[e]) && TopsInStack(elems, groups)
  {
    if IsTemp(elems, e) then CellAt(groups, m.stackMemoryBase, JoinsAt(elems, groups, e).1) else Root(Slot(elems, m, e))
  }

  /** `removeReference` of a linked variable e. */
  ghost function RemovedLinks(elems: seq<StackElement>, m: ReferenceMap, st: Links, groups: seq<int>, e: int): Links
    requires Shape(elems, m, st) && Member(elems, m, st, e) && TopsInStack(elems, groups) && LinksFit(st, e)
  {
    Unlink(st, CellOf(elems, m, groups, e), e, IsTemp(elems, e))
  }

  /**
    The group tops after `removeReference` of e: a group whose only element
    e was disappears, and a group whose top e was gets e's previous
    occurrence as its top.
  */
  ghost function RemovedGroups(elems: seq<StackElement>, st: Links, groups: seq<int>, e: int): seq<int>
    requires 0 <= e < |elems| && |st.prev| == |elems| && TopsInStack(elems, groups)
  {
    var k := JoinsAt(elems, groups, e).1;
    if !IsTemp(elems, e) || k == |groups| || groups[k] != e then groups
    else if st.prev[e] == -1 then groups[..k] + groups[k + 1..]
    else groups[k := st.prev[e]]
  }

  /** Splicing e out of its list keeps the other elements' occurrence links mutual and within one list. */
  lemma SpliceLinks(elems: seq<StackElement>, m: ReferenceMap, st: Links, linked: set<int>, e: int, st': Links)
    requires Shape(elems, m, st) && Members(elems, m, st, linked) && PrevLinks(elems, m, st, linked) && NextLinks(elems, m, st, linked)
    requires e in linked && |st'.references| == |st.references| && |st'.nextLower| == |elems|
    requires st'.prev == (if st.next[e] != -1 then st.prev[st.next[e] := st.prev[e]] else st.prev)
    requires st'.next == (if st.prev[e] != -1 then st.next[st.prev[e] := st.next[e]] else st.next)
    ensures Shape(elems, m, st') && Members(elems, m, st', linked - {e})
    ensures PrevLinks(elems, m, st', linked - {e}) && NextLinks(elems, m, st', linked - {e})
  {
    var p, n := st.prev[e], st.next[e];
    var linked' := linked - {e};
    assert Members(elems, m, st', linked');
    forall i | i in linked'
      ensures st'.prev[i] == -1 || (st'.prev[i] in linked' && st'.next[st'.prev[i]] == i && SameList(elems, m, st'.prev[i], i))
    {
      if i == n {
        if p != -1 {
          assert p != e;
          assert SameList(elems, m, p, e) && SameList(elems, m, e, n);
        }
      } else if st.prev[i] != -1 {
        assert st.prev[i] != e;
        assert st.prev[i] != p || p == -1;
      }
    }
    forall i | i in linked'
      ensures st'.next[i] == -1 || (st'.next[i] in linked' && st'.prev[st'.next[i]] == i)
    {
      if i == p {
        if n != -1 {
          assert n != e;
        }
      } else if st.next[i] != -1 {
        assert st.next[i] != e;
        assert st.next[i] != n || n == -1;
      }
    }
  }

  /** Splicing e out between its neighbours keeps the ranks. */
  lemma SpliceRanked(st: Links, st': Links, linked: set<int>, rank: seq<nat>, clock: nat, e: int)
    requires Ranked(st, linked, rank, clock) && e in linked && PrevLinked(st, linked) && |st.next| == |st.prev|
    requires forall i | i in linked :: -1 <= st.next[i] < |st.prev| && (st.next[i] != -1 ==> st.prev[st.next[i]] == i)
    requires st'.prev == (if st.next[e] != -1 then st.prev[st.next[e] := st.prev[e]] else st.prev)
    ensures Ranked(st', linked - {e}, rank, clock)
  {
    var p, n := st.prev[e], st.next[e];
    forall i | i in linked - {e}
      ensures 0 <= st'.prev[i] < |rank| ==> rank[st'.prev[i]] < rank[i]
    {
      if i == n && p != -1 {
        assert n in linked;
        assert rank[p] < rank[e] < rank[n];
      }
    }
  }
  /** The elements of a sequence with the element at k removed. */
  lemma RemoveAt(s: seq<int>, k: nat)
    requires k < |s|
    ensures |s[..k] + s[k + 1..]| == |s| - 1
    ensures forall j | 0 <= j < |s| - 1 :: (s[..k] + s[k + 1..])[j] == if j < k then s[j] else s[j + 1]
  {
  }

  /** Removing the only element of a list outside stack memory empties its slot. */
  lemma RemoveSolePlain(elems: seq<StackElement>, m: ReferenceMap, st: Links, linked: set<int>, groups: seq<int>, e: int, st': Links)
    requires WellLinked(elems, m, st, linked, groups) && e in linked && !IsTemp(elems, e)
    requires st.prev[e] == -1 && st.next[e] == -1
    requires st' == st.(references := st.references[Slot(elems, m, e) := -1])
    ensures WellLinked(elems, m, st', linked - {e}, groups)
  {
    var s := Slot(elems, m, e);
    SpliceLinks(elems, m, st, linked, e, st');
    assert st.references[s] == e;
    forall i | i in linked - {e}
      ensures st'.next[i] == -1 <==> IsTop(elems, m, st', groups, i)
    {
      if !IsTemp(elems, i) && Slot(elems, m, i) == s {
        assert st.references[s] != i;
      }
    }
    forall k | 0 <= k < |groups| ensures groups[k] != e {
      assert IsTemp(elems, groups[k]);
    }
  }

  /** Removing the only element of a group drops the group and links the groups around it. */
  lemma RemoveSoleTemp(elems: seq<StackElement>, m: ReferenceMap, st: Links, linked: set<int>, groups: seq<int>, e: int, k: nat,
                       st': Links)
    requires WellLinked(elems, m, st, linked, groups) && e in linked && IsTemp(elems, e)
    requires st.prev[e] == -1 && st.next[e] == -1 && k < |groups| && groups[k] == e
    requires TopsInStack(elems, groups)
    requires st' == WriteCell(st, CellAt(groups, m.stackMemoryBase, k), st.nextLower[e])
    ensures WellLinked(elems, m, st', linked - {e}, groups[..k] + groups[k + 1..])
  {
    RemoveAt(groups, k);
    SpliceLinks(elems, m, st, linked, e, st');
    forall j | 0 <= j < |groups| && j != k ensures groups[j] != e {
      GroupsDistinct(elems, m, st, linked, groups, j, k);
    }
    RemoveSoleChained(elems, m, st, linked, groups, e, k, st');
    RemoveSoleTops(elems, m, st, linked, groups, e, k, st');
  }

  /** Dropping position k of a sequence keeps every value other than the one stored there. */
  lemma RemoveAtIn(s: seq<int>, k: nat, x: int)
    requires k < |s| && x != s[k]
    ensures x in s[..k] + s[k + 1..] <==> x in s
  {
    RemoveAt(s, k);
    var s' := s[..k] + s[k + 1..];
    if x in s {
      var j :| 0 <= j < |s| && s[j] == x;
      assert s'[if j < k then j else j - 1] == x;
    }
    if x in s' {
      var j :| 0 <= j < |s'| && s'[j] == x;
      assert s[if j < k then j else j + 1] == x;
    }
  }

  lemma RemoveSoleTops(elems: seq<StackElement>, m: ReferenceMap, st: Links, linked: set<int>, groups: seq<int>, e: int, k: nat,
                       st': Links)
    requires Shape(elems, m, st) && Members(elems, m, st, linked) && TopsMarked(elems, m, st, linked, groups)
    requires Members(elems, m, st', linked - {e}) && Shape(elems, m, st')
    requires e in linked && IsTemp(elems, e) && k < |groups| && groups[k] == e && TopsInStack(elems, groups)
    requires st' == WriteCell(st, CellAt(groups, m.stackMemoryBase, k), st.nextLower[e])
    ensures TopsMarked(elems, m, st', linked - {e}, groups[..k] + groups[k + 1..])
  {
    var g' := groups[..k] + groups[k + 1..];
    RemoveAt(groups, k);
    forall i | i in linked - {e}
      ensures st'.next[i] == -1 <==> IsTop(elems, m, st', g', i)
    {
      if IsTemp(elems, i) {
        RemoveAtIn(groups, k, i);
      } else {
        assert Slot(elems, m, i) != m.stackMemoryBase;
        assert st'.references[Slot(elems, m, i)] == st.references[Slot(elems, m, i)];
      }
    }
  }

  lemma RemoveSoleChained(elems: seq<StackElement>, m: ReferenceMap, st: Links, linked: set<int>, groups: seq<int>, e: int, k: nat,
                          st': Links)
    requires Shape(elems, m, st) && Members(elems, m, st, linked) && GroupsChained(elems, m, st, linked, groups)
    requires SlotsHold(elems, m, st, linked)
    requires e in linked && IsTemp(elems, e) && k < |groups| && groups[k] == e && TopsInStack(elems, groups)
    requires forall j | 0 <= j < |groups| && j != k :: groups[j] != e
    requires st' == WriteCell(st, CellAt(groups, m.stackMemoryBase, k), st.nextLower[e])
    requires Shape(elems, m, st') && Members(elems, m, st', linked - {e})
    ensures SlotsHold(elems, m, st', linked - {e}) && GroupsChained(elems, m, st', linked - {e}, groups[..k] + groups[k + 1..])
  {
    var g' := groups[..k] + groups[k + 1..];
    RemoveSoleSlots(elems, m, st, linked, groups, e, k, st', g');
    RemoveSoleNext(elems, m, st, linked, groups, e, k, st', g');
    RemoveSoleOrder(elems, linked, groups, e, k, g');
    assert GroupsChained(elems, m, st', linked - {e}, g');
  }

  /** Dropping element k of the chain keeps the others in order, each linked and temporary. */
  lemma RemoveSoleOrder(elems: seq<StackElement>, linked: set<int>, groups: seq<int>, e: int, k: nat, g': seq<int>)
    requires k < |groups| && groups[k] == e && g' == groups[..k] + groups[k + 1..] && TopsInStack(elems, groups)
    requires forall j | 0 <= j < |groups| && j != k :: groups[j] != e
    requires forall j | 0 <= j < |groups| :: groups[j] in linked && IsTemp(elems, groups[j])
    requires forall i, j | 0 <= i < j < |groups| :: FramePos(elems, groups[i]) > FramePos(elems, groups[j])
    ensures forall j | 0 <= j < |g'| :: g'[j] in linked - {e} && IsTemp(elems, g'[j])
    ensures forall i, j | 0 <= i < j < |g'| :: FramePos(elems, g'[i]) > FramePos(elems, g'[j])
  {
    RemoveAt(groups, k);
    forall i, j | 0 <= i < j < |g'|
      ensures FramePos(elems, g'[i]) > FramePos(elems, g'[j])
    {
      assert FramePos(elems, groups[if i < k then i else i + 1]) > FramePos(elems, groups[if j < k then j else j + 1]);
    }
  }

  /** Unlinking a chained element leaves every non-empty slot holding a remaining element of that slot. */
  lemma RemoveSoleSlots(elems: seq<StackElement>, m: ReferenceMap, st: Links, linked: set<int>, groups: seq<int>, e: int, k: nat,
                        st': Links, g': seq<int>)
    requires Shape(elems, m, st) && Members(elems, m, st, linked) && GroupsChained(elems, m, st, linked, groups)
    requires SlotsHold(elems, m, st, linked)
    requires e in linked && k < |groups| && groups[k] == e && g' == groups[..k] + groups[k + 1..]
    requires forall j | 0 <= j < |groups| && j != k :: groups[j] != e
    requires st' == WriteCell(st, CellAt(groups, m.stackMemoryBase, k), st.nextLower[e])
    requires Members(elems, m, st', linked - {e})
    ensures SlotsHold(elems, m, st', linked - {e})
    ensures st'.references[m.stackMemoryBase] == if g' == [] then -1 else g'[0]
  {
    RemoveAt(groups, k);
    assert st.nextLower[e] == if k + 1 < |groups| then groups[k + 1] else -1;
    assert st'.references == if k == 0 then st.references[m.stackMemoryBase := st.nextLower[e]] else st.references;
    forall s | 0 <= s < |st'.references| && st'.references[s] != -1
      ensures st'.references[s] in linked - {e} && Slot(elems, m, st'.references[s]) == s
    {
      if s == m.stackMemoryBase && k == 0 {
        assert groups[1] in linked;
      }
    }
  }

  /** Unlinking element k of the chain makes its predecessor point at its successor. */
  lemma RemoveSoleNext(elems: seq<StackElement>, m: ReferenceMap, st: Links, linked: set<int>, groups: seq<int>, e: int, k: nat,
                       st': Links, g': seq<int>)
    requires Shape(elems, m, st) && GroupsChained(elems, m, st, linked, groups)
    requires k < |groups| && groups[k] == e && g' == groups[..k] + groups[k + 1..]
    requires st' == WriteCell(st, CellAt(groups, m.stackMemoryBase, k), st.nextLower[e])
    ensures forall j | 0 <= j < |g'| :: st'.nextLower[g'[j]] == if j + 1 < |g'| then g'[j + 1] else -1
  {
    assert forall q | 0 <= q < |groups| :: 0 <= groups[q] < |elems| by {
      forall q | 0 <= q < |groups| ensures 0 <= groups[q] < |elems| {
        assert IsTemp(elems, groups[q]);
      }
    }
    if k == 0 {
      assert st'.nextLower == st.nextLower;
    } else {
      assert st'.nextLower == st.nextLower[groups[k - 1] := st.nextLower[e]];
    }
    ChainSkip(elems, st.nextLower, st'.nextLower, groups, k, g');
  }

  /**
    In a chain ordered by frame position, skipping element k (by pointing
    its predecessor at its successor) leaves a chain of the rest.
  */
  lemma ChainSkip(elems: seq<StackElement>, next: seq<int>, next': seq<int>, groups: seq<int>, k: nat, g': seq<int>)
    requires k < |groups| && g' == groups[..k] + groups[k + 1..]
    requires forall q | 0 <= q < |groups| :: 0 <= groups[q] < |elems| && groups[q] < |next|
    requires forall q | 0 <= q < |groups| :: next[groups[q]] == if q + 1 < |groups| then groups[q + 1] else -1
    requires forall i, j | 0 <= i < j < |groups| :: FramePos(elems, groups[i]) > FramePos(elems, groups[j])
    requires next' == if k == 0 then next else next[groups[k - 1] := next[groups[k]]]
    ensures forall j | 0 <= j < |g'| :: next'[g'[j]] == if j + 1 < |g'| then g'[j + 1] else -1
  {
    RemoveAt(groups, k);
    forall j | 0 <= j < |g'|
      ensures next'[g'[j]] == if j + 1 < |g'| then g'[j + 1] else -1
    {
      if j < k - 1 {
        assert g'[j] == groups[j] && g'[j + 1] == groups[j + 1];
        assert FramePos(elems, groups[j]) > FramePos(elems, groups[k - 1]);
        assert next'[groups[j]] == next[groups[j]];
      } else if j == k - 1 {
        assert g'[j] == groups[k - 1];
        assert next'[groups[k - 1]] == next[groups[k]];
      } else {
        assert g'[j] == groups[j + 1];
        if k > 0 {
          assert FramePos(elems, groups[k - 1]) > FramePos(elems, groups[j + 1]);
        }
        assert next'[groups[j + 1]] == next[groups[j + 1]];
      }
    }
  }

  /** Removing an element below the top of its list only joins its neighbours. */
  lemma RemoveMiddle(elems: seq<StackElement>, m: ReferenceMap, st: Links, linked: set<int>, groups: seq<int>, e: int, st': Links)
    requires WellLinked(elems, m, st, linked, groups) && e in linked && st.next[e] != -1
    requires st' == st.(prev := st.prev[st.next[e] := st.prev[e]],
                        next := if st.prev[e] != -1 then st.next[st.prev[e] := st.next[e]] else st.next)
    ensures WellLinked(elems, m, st', linked - {e}, groups)
  {
    SpliceLinks(elems, m, st, linked, e, st');
    assert !IsTop(elems, m, st, groups, e);
    forall s | 0 <= s < |st'.references| && st'.references[s] != -1
      ensures st'.references[s] in linked - {e} && Slot(elems, m, st'.references[s]) == s
    {
      if st.references[s] == e {
        assert false;
      }
    }
    var p := st.prev[e];
    assert p != -1 ==> p in linked && st.next[p] == e;
    forall i | i in linked - {e}
      ensures st'.next[i] == -1 <==> IsTop(elems, m, st', groups, i)
    {
      assert st'.next[i] == -1 <==> st.next[i] == -1;
      if !IsTemp(elems, i) {
        assert st'.references[Slot(elems, m, i)] == st.references[Slot(elems, m, i)];
      }
    }
    forall k | 0 <= k < |groups| ensures groups[k] in linked - {e} {
      assert groups[k] != e;
    }
  }

  /** Removing the top of a list outside stack memory makes its previous occurrence the top. */
  lemma RemoveTopPlain(elems: seq<StackElement>, m: ReferenceMap, st: Links, linked: set<int>, groups: seq<int>, e: int, st': Links)
    requires WellLinked(elems, m, st, linked, groups) && e in linked && !IsTemp(elems, e)
    requires st.prev[e] != -1 && st.next[e] == -1
    requires st' == st.(next := st.next[st.prev[e] := -1], references := st.references[Slot(elems, m, e) := st.prev[e]])
    ensures WellLinked(elems, m, st', linked - {e}, groups)
  {
    var p, slot := st.prev[e], Slot(elems, m, e);
    SpliceLinks(elems, m, st, linked, e, st');
    assert p in linked && st.next[p] == e && SameList(elems, m, p, e);
    assert st.references[slot] == e;
    assert slot != m.stackMemoryBase;
    forall i | i in linked - {e}
      ensures st'.next[i] == -1 <==> IsTop(elems, m, st', groups, i)
    {
      if i != p && !IsTemp(elems, i) {
        assert st'.references[Slot(elems, m, i)] == i <==> st.references[Slot(elems, m, i)] == i;
      }
    }
    forall k | 0 <= k < |groups| ensures groups[k] in linked - {e} {
      assert IsTemp(elems, groups[k]);
    }
  }

  /** Removing the top of a group makes its previous occurrence the group's top, in the same place of the chain. */
  lemma RemoveTopTemp(elems: seq<StackElement>, m: ReferenceMap, st: Links, linked: set<int>, groups: seq<int>, e: int, k: nat,
                      st': Links)
    requires WellLinked(elems, m, st, linked, groups) && e in linked && IsTemp(elems, e)
    requires st.prev[e] != -1 && st.next[e] == -1 && k < |groups| && groups[k] == e && TopsInStack(elems, groups)
    requires st' == WriteCell(st.(next := st.next[st.prev[e] := -1], nextLower := st.nextLower[st.prev[e] := st.nextLower[e]]),
                              CellAt(groups, m.stackMemoryBase, k), st.prev[e])
    ensures WellLinked(elems, m, st', linked - {e}, groups[k := st.prev[e]])
  {
    var p := st.prev[e];
    SpliceLinks(elems, m, st, linked, e, st');
    assert p in linked && st.next[p] == e && SameList(elems, m, p, e);
    assert p !in groups;
    forall j | 0 <= j < |groups| && j != k ensures groups[j] != e {
      GroupsDistinct(elems, m, st, linked, groups, j, k);
    }
    RemoveTopTops(elems, m, st, linked, groups, e, k, st');
    RemoveTopChained(elems, m, st, linked, groups, e, k, st');
  }

  lemma RemoveTopTops(elems: seq<StackElement>, m: ReferenceMap, st: Links, linked: set<int>, groups: seq<int>, e: int, k: nat,
                      st': Links)
    requires Shape(elems, m, st) && Members(elems, m, st, linked) && TopsMarked(elems, m, st, linked, groups)
    requires Members(elems, m, st', linked - {e}) && Shape(elems, m, st')
    requires e in linked && IsTemp(elems, e) && k < |groups| && groups[k] == e && TopsInStack(elems, groups)
    requires st.prev[e] in linked && st.next[st.prev[e]] == e && IsTemp(elems, st.prev[e]) && st.prev[e] !in groups
    requires st' == WriteCell(st.(next := st.next[st.prev[e] := -1], nextLower := st.nextLower[st.prev[e] := st.nextLower[e]]),
                              CellAt(groups, m.stackMemoryBase, k), st.prev[e])
    ensures TopsMarked(elems, m, st', linked - {e}, groups[k := st.prev[e]])
  {
    var p := st.prev[e];
    var g' := groups[k := p];
    assert g'[k] == p;
    forall i | i in linked - {e}
      ensures st'.next[i] == -1 <==> IsTop(elems, m, st', g', i)
    {
      if i != p {
        if IsTemp(elems, i) {
          assert i in g' <==> i in groups by {
            if i in groups {
              var j :| 0 <= j < |groups| && groups[j] == i;
              assert g'[j] == i;
            }
            if i in g' {
              var j :| 0 <= j < |g'| && g'[j] == i;
              assert groups[j] == i;
            }
          }
        } else {
          assert Slot(elems, m, i) != m.stackMemoryBase;
          assert st'.references[Slot(elems, m, i)] == st.references[Slot(elems, m, i)];
        }
      }
    }
  }

  lemma RemoveTopChained(elems: seq<StackElement>, m: ReferenceMap, st: Links, linked: set<int>, groups: seq<int>, e: int, k: nat,
                         st': Links)
    requires Shape(elems, m, st) && Members(elems, m, st, linked) && GroupsChained(elems, m, st, linked, groups)
    requires SlotsHold(elems, m, st, linked)
    requires e in linked && IsTemp(elems, e) && k < |groups| && groups[k] == e && TopsInStack(elems, groups)
    requires forall j | 0 <= j < |groups| && j != k :: groups[j] != e
    requires st.prev[e] in linked && IsTemp(elems, st.prev[e]) && st.prev[e] !in groups && st.prev[e] != e
    requires FramePos(elems, st.prev[e]) == FramePos(elems, e)
    requires st' == WriteCell(st.(next := st.next[st.prev[e] := -1], nextLower := st.nextLower[st.prev[e] := st.nextLower[e]]),
                              CellAt(groups, m.stackMemoryBase, k), st.prev[e])
    requires Shape(elems, m, st') && Members(elems, m, st', linked - {e})
    ensures SlotsHold(elems, m, st', linked - {e}) && GroupsChained(elems, m, st', linked - {e}, groups[k := st.prev[e]])
  {
    var p := st.prev[e];
    var g' := groups[k := p];
    var nl1 := st.nextLower[p := st.nextLower[e]];
    assert st.nextLower[e] == if k + 1 < |groups| then groups[k + 1] else -1;
    assert st'.references == if k == 0 then st.references[m.stackMemoryBase := p] else st.references;
    assert st'.references[m.stackMemoryBase] == g'[0];
    assert st'.nextLower == if k == 0 then nl1 else nl1[groups[k - 1] := p];
    forall s | 0 <= s < |st'.references| && st'.references[s] != -1
      ensures st'.references[s] in linked - {e} && Slot(elems, m, st'.references[s]) == s
    {
    }
    forall j | 0 <= j < |g'|
      ensures st'.nextLower[g'[j]] == if j + 1 < |g'| then g'[j + 1] else -1
    {
      if j == k {
        assert g'[j] == p;
        assert k + 1 < |g'| ==> g'[k + 1] == groups[k + 1];
      } else if j == k - 1 {
        assert g'[j + 1] == p;
      } else {
        assert g'[j] == groups[j] && groups[j] != p;
        if k > 0 {
          if j < k - 1 {
            assert FramePos(elems, groups[j]) > FramePos(elems, groups[k - 1]);
          } else {
            assert FramePos(elems, groups[k - 1]) > FramePos(elems, groups[j]);
          }
        }
        assert st.nextLower[groups[j]] == if j + 1 < |groups| then groups[j + 1] else -1;
        assert j + 1 < |g'| ==> g'[j + 1] == groups[j + 1];
      }
    }
    forall i, j | 0 <= i < j < |g'|
      ensures FramePos(elems, g'[i]) > FramePos(elems, g'[j])
    {
      assert FramePos(elems, groups[i]) > FramePos(elems, groups[j]);
    }
    assert forall j | 0 <= j < |g'| :: g'[j] in linked - {e} && IsTemp(elems, g'[j]);
    assert GroupsChained(elems, m, st', linked - {e}, g');
  }
  /** The group of a linked temporary result is the one `JoinsAt` finds. */
  lemma GroupFound(elems: seq<StackElement>, m: ReferenceMap, st: Links, linked: set<int>, groups: seq<int>,
                   rank: seq<nat>, clock: nat, e: int)
    requires WellLinked(elems, m, st, linked, groups) && Ranked(st, linked, rank, clock) && e in linked && IsTemp(elems, e)
    ensures TopsInStack(elems, groups) && JoinsAt(elems, groups, e).0
    ensures e in groups ==> groups[JoinsAt(elems, groups, e).1] == e
  {
    InStack(elems, m, st, linked, groups, e);
    var k0 := GroupOf(elems, m, st, linked, groups, rank, clock, e);
    GroupIndexAt(elems, groups, FramePos(elems, e), 0, k0);
    if e in groups {
      var j :| 0 <= j < |groups| && groups[j] == e;
      assert FramePos(elems, groups[j]) == FramePos(elems, groups[k0]);
      assert j == k0;
    }
  }

  /** `removeReference` keeps the lists well formed and ranked. */
  lemma RemoveReferenceValid(elems: seq<StackElement>, m: ReferenceMap, st: Links, linked: set<int>, groups: seq<int>,
                             rank: seq<nat>, clock: nat, e: int)
    requires WellLinked(elems, m, st, linked, groups) && Ranked(st, linked, rank, clock) && e in linked
    ensures TopsInStack(elems, groups) && LinksFit(st, e)
    ensures WellLinked(elems, m, RemovedLinks(elems, m, st, groups, e), linked - {e}, RemovedGroups(elems, st, groups, e))
    ensures Ranked(RemovedLinks(elems, m, st, groups, e), linked - {e}, rank, clock)
  {
    InStack(elems, m, st, linked, groups, e);
    var p, n := st.prev[e], st.next[e];
    assert p != -1 ==> p in linked;
    assert n != -1 ==> n in linked;
    var temp := IsTemp(elems, e);
    var k := JoinsAt(elems, groups, e).1;
    if temp {
      GroupFound(elems, m, st, linked, groups, rank, clock, e);
    }
    var c := CellOf(elems, m, groups, e);
    var st' := RemovedLinks(elems, m, st, groups, e);
    if n == -1 {
      assert IsTop(elems, m, st, groups, e);
      assert ReadCell(st, c) == e by {
        if temp && k > 0 {
          assert st.nextLower[groups[k - 1]] == groups[k];
        }
      }
      if p == -1 {
        if temp {
          RemoveSoleTemp(elems, m, st, linked, groups, e, k, st');
        } else {
          RemoveSolePlain(elems, m, st, linked, groups, e, st');
        }
      } else {
        if temp {
          RemoveTopTemp(elems, m, st, linked, groups, e, k, st');
        } else {
          RemoveTopPlain(elems, m, st, linked, groups, e, st');
        }
      }
    } else {
      assert !IsTop(elems, m, st, groups, e);
      assert ReadCell(st, c) != e by {
        if temp {
          assert groups[k] in linked;
          if k > 0 {
            assert st.nextLower[groups[k - 1]] == groups[k];
          }
        }
      }
      RemoveMiddle(elems, m, st, linked, groups, e, st');
    }
    SpliceRanked(st, st', linked, rank, clock, e);
  }

  /**
    `isWritableScratchReg`: a scratch-register element (at stack position
    `at`, -1 when it is not on the stack) whose slot is empty, or whose
    slot's top is the element itself with no previous occurrence.
  */
  function IsWritableScratchReg(m: ReferenceMap, st: Links, elem: D.Option<StackElement>, at: int): bool
    requires forall s | 0 <= s < |st.references| :: -1 <= st.references[s] < |st.prev|
    requires elem.Some? && elem.value.ScratchRegister? ==> GetReferencePosition(m, elem.value) < |st.references|
  {
    if elem.None? || !elem.value.ScratchRegister? then false
    else
      var top := st.references[GetReferencePosition(m, elem.value)];
      top == -1 || (top == at && st.prev[top] == -1)
  }

  /** Slots of well-formed lists hold elements of the stack or -1. */
  lemma SlotsInStack(elems: seq<StackElement>, m: ReferenceMap, st: Links, linked: set<int>, groups: seq<int>)
    requires WellLinked(elems, m, st, linked, groups)
    ensures forall s | 0 <= s < |st.references| :: -1 <= st.references[s] < |st.prev|
  {
    forall s | 0 <= s < |st.references| ensures -1 <= st.references[s] < |st.prev| {
      if st.references[s] != -1 {
        assert st.references[s] in linked;
      }
    }
  }

  /**
    On well-formed lists, a scratch register is writable exactly when no
    linked element other than itself shares its slot.
  */
  lemma WritableAlone(elems: seq<StackElement>, m: ReferenceMap, st: Links, linked: set<int>, groups: seq<int>,
                      rank: seq<nat>, clock: nat, at: int)
    requires WellLinked(elems, m, st, linked, groups) && Ranked(st, linked, rank, clock)
    requires 0 <= at < |elems| && elems[at].ScratchRegister? && Member(elems, m, st, at)
    ensures forall s | 0 <= s < |st.references| :: -1 <= st.references[s] < |st.prev|
    ensures IsWritableScratchReg(m, st, D.Some(elems[at]), at) <==>
            forall i | i in linked && Slot(elems, m, i) == Slot(elems, m, at) :: i == at
  {
    SlotsInStack(elems, m, st, linked, groups);
    var s := Slot(elems, m, at);
    var top := st.references[s];
    if IsWritableScratchReg(m, st, D.Some(elems[at]), at) {
      forall i | i in linked && Slot(elems, m, i) == s ensures i == at {
        var t := ReachesTop(elems, m, st, linked, groups, rank, clock, i);
        assert !IsTemp(elems, i) && !IsTemp(elems, t);
        assert top == t;
      }
    } else {
      assert top != -1 && top in linked && Slot(elems, m, top) == s;
      if top == at {
        var p := st.prev[at];
        assert p in linked && SameList(elems, m, p, at);
        assert p != at by {
          assert IsTop(elems, m, st, groups, at);
        }
      }
    }
  }

  /** The common tail of `addReference`: e goes on top of the list kept in cell c. */
  method Push(st: Links, c: Cell, e: int) returns (r: Links)
    requires 0 <= e < |st.prev| == |st.next| && CellFits(st, c) && -1 <= ReadCell(st, c) < |st.next|
    ensures r == PushOnto(st, c, e, ReadCell(st, c))
  {
    var top := ReadCell(st, c);
    var next := st.next[e := -1];
    var prev := st.prev[e := top];
    if top != -1 {
      next := next[top := e];
    }
    r := WriteCell(Links(prev, next, st.nextLower, st.references), c, e);
  }

  /**
    The search of `addReference` down the group chain: it stops at the
    group of e's frame position, or at the last group above it.
  */
  method FindGroup(elems: seq<StackElement>, m: ReferenceMap, st: Links, ghost linked: set<int>, ghost groups: seq<int>, e: int)
      returns (cell: Cell, targeted: int, ghost j: nat)
    requires Shape(elems, m, st) && TopsInStack(elems, groups) && GroupsChained(elems, m, st, linked, groups) && 0 <= e < |elems|
    requires st.references[m.stackMemoryBase] != -1
    requires FramePos(elems, e) <= FramePos(elems, st.references[m.stackMemoryBase])
    ensures j < |groups| && targeted == groups[j] && cell == CellAt(groups, m.stackMemoryBase, j)
    ensures forall i | 0 <= i < j :: FramePos(elems, groups[i]) > FramePos(elems, e)
    ensures FramePos(elems, e) <= FramePos(elems, targeted)
    ensures st.nextLower[targeted] == if j + 1 < |groups| then groups[j + 1] else -1
    ensures FramePos(elems, e) < FramePos(elems, targeted) && j + 1 < |groups| ==> FramePos(elems, groups[j + 1]) < FramePos(elems, e)
  {
    var fp := FramePos(elems, e);
    targeted := st.references[m.stackMemoryBase];
    cell := Root(m.stackMemoryBase);
    j := 0;
    assert st.nextLower[groups[0]] == if 1 < |groups| then groups[1] else -1;
    while fp < FramePos(elems, targeted) && st.nextLower[targeted] != -1 && fp <= FramePos(elems, st.nextLower[targeted])
      invariant j < |groups| && targeted == groups[j] && cell == CellAt(groups, m.stackMemoryBase, j)
      invariant forall i | 0 <= i < j :: FramePos(elems, groups[i]) > fp
      invariant fp <= FramePos(elems, targeted)
      invariant st.nextLower[targeted] == if j + 1 < |groups| then groups[j + 1] else -1
      decreases |groups| - j
    {
      cell := Lower(targeted);
      targeted := st.nextLower[targeted];
      j := j + 1;
    }
  }

  /**
    `addReference` of a temporary result e in stack memory: walk down the
    group chain from the stack-memory slot while e's frame position is
    below the current group's, then join the group at e's position or
    start a new one in its place.
  */
  method LinkTemp(elems: seq<StackElement>, m: ReferenceMap, st: Links, ghost linked: set<int>, ghost groups: seq<int>, e: int)
      returns (r: Links)
    requires Shape(elems, m, st) && TopsInStack(elems, groups) && GroupsChained(elems, m, st, linked, groups)
    requires Member(elems, m, st, e) && IsTemp(elems, e)
    ensures -1 <= st.references[Slot(elems, m, e)] < |elems|
    ensures r == AddedLinks(elems, m, st, groups, e)
  {
    var slot := m.stackMemoryBase;
    var fp := FramePos(elems, e);
    var top := st.references[slot];
    if top == -1 {
      GroupIndexAt(elems, groups, fp, 0, 0);
      assert JoinsAt(elems, groups, e) == (false, 0);
      r := Push(st.(nextLower := st.nextLower[e := -1]), Root(slot), e);
      assert r == NewGroup(st, groups, slot, e, 0);
      return;
    }
    if fp > FramePos(elems, top) {
      // a new highest group
      GroupIndexAt(elems, groups, fp, 0, 0);
      assert JoinsAt(elems, groups, e) == (false, 0);
      r := Push(st.(nextLower := st.nextLower[e := top], references := st.references[slot := -1]), Root(slot), e);
      NewTop(st, groups, slot, e);
      return;
    }
    var cell, targeted, j := FindGroup(elems, m, st, linked, groups, e);
    if fp == FramePos(elems, targeted) {
      // the group of e's frame position
      GroupIndexAt(elems, groups, fp, 0, j);
      assert JoinsAt(elems, groups, e) == (true, j);
      r := Push(st.(nextLower := st.nextLower[e := st.nextLower[targeted]]), cell, e);
      assert r == JoinGroup(st, groups, slot, e, j);
    } else {
      // a new group below `targeted`
      var lower := st.nextLower[targeted];
      GroupIndexAt(elems, groups, fp, 0, j + 1);
      assert JoinsAt(elems, groups, e) == (false, j + 1);
      if lower == -1 {
        r := Push(st.(nextLower := st.nextLower[e := -1]), Lower(targeted), e);
        assert r == NewGroup(st, groups, slot, e, j + 1);
      } else {
        r := Push(st.(nextLower := st.nextLower[e := lower][targeted := -1]), Lower(targeted), e);
        NewBetween(st, groups, slot, e, j + 1);
      }
    }
  }

  /** Emptying the slot before pushing onto it starts a new highest group. */
  lemma NewTop(st: Links, groups: seq<int>, slot: nat, e: int)
    requires 0 <= e < |st.prev| == |st.next| == |st.nextLower| && slot < |st.references| && GroupsFit(st, groups)
    requires groups != [] && st.references[slot] == groups[0]
    ensures PushOnto(st.(nextLower := st.nextLower[e := groups[0]], references := st.references[slot := -1]), Root(slot), e, -1)
            == NewGroup(st, groups, slot, e, 0)
  {
    var x := st.(nextLower := st.nextLower[e := groups[0]]);
    assert x.references[slot := -1][slot := e] == x.references[slot := e];
  }

  /** Cutting the chain below the group above before pushing onto it inserts a new group. */
  lemma NewBetween(st: Links, groups: seq<int>, slot: nat, e: int, k: nat)
    requires 0 <= e < |st.prev| == |st.next| == |st.nextLower| && slot < |st.references| && GroupsFit(st, groups)
    requires 0 < k < |groups| && st.nextLower[groups[k - 1]] == groups[k]
    ensures PushOnto(st.(nextLower := st.nextLower[e := groups[k]][groups[k - 1] := -1]), Lower(groups[k - 1]), e, -1)
            == NewGroup(st, groups, slot, e, k)
  {
    var nl := st.nextLower[e := groups[k]];
    assert nl[groups[k - 1] := -1][groups[k - 1] := e] == nl[groups[k - 1] := e];
  }

  /**
    `removeReference` of a linked variable e: in stack memory walk down the
    group chain to the group of e's frame position, then unlink e there.
  */
  method UnlinkElement(elems: seq<StackElement>, m: ReferenceMap, st: Links, ghost linked: set<int>, ghost groups: seq<int>,
                       ghost rank: seq<nat>, ghost clock: nat, e: int)
      returns (r: Links, ghost groups': seq<int>)
    requires Consistent(elems, m, st, linked, groups, rank, clock) && e in linked
    ensures TopsInStack(elems, groups) && LinksFit(st, e)
    ensures r == RemovedLinks(elems, m, st, groups, e) && groups' == RemovedGroups(elems, st, groups, e)
    ensures Consistent(elems, m, r, linked - {e}, groups', rank, clock)
  {
    RemoveKeepsConsistent(elems, m, st, linked, groups, rank, clock, e);
    groups' := RemovedGroups(elems, st, groups, e);
    var cell := Root(GetReferencePosition(m, elems[e]) as int);
    var temp := IsStackMemory(elems[e]);
    if temp {
      GroupFound(elems, m, st, linked, groups, rank, clock, e);
      ghost var k := JoinsAt(elems, groups, e).1;
      var targeted := st.references[m.stackMemoryBase];
      ghost var j := 0;
      while FramePos(elems, e) != FramePos(elems, targeted)
        invariant 0 <= j <= k && targeted == groups[j] && cell == CellAt(groups, m.stackMemoryBase, j)
        decreases k - j
      {
        assert j != k;
        assert st.nextLower[groups[j]] == groups[j + 1];
        cell := Lower(targeted);
        targeted := st.nextLower[targeted];
        j := j + 1;
      }
    }
    var p, n := st.prev[e], st.next[e];
    if p == -1 && n == -1 {
      r := WriteCell(st, cell, if temp then st.nextLower[e] else -1);
    } else {
      var prev := if n != -1 then st.prev[n := p] else st.prev;
      var next := if p != -1 then st.next[p := n] else st.next;
      r := st.(prev := prev, next := next);
      if ReadCell(st, cell) == e {
        // e was the top of its list or group
        if temp && p != -1 {
          r := r.(nextLower := r.nextLower[p := st.nextLower[e]]);
        }
        r := WriteCell(r, cell, p);
      }
    }
  }

  /** Well-formed lists whose previous occurrences were linked earlier. */
  ghost predicate Consistent(elems: seq<StackElement>, m: ReferenceMap, st: Links, linked: set<int>, groups: seq<int>,
                             rank: seq<nat>, clock: nat) {
    WellLinked(elems, m, st, linked, groups) && Ranked(st, linked, rank, clock)
  }

  /** `addReference` keeps the lists consistent, e linked last. */
  lemma AddKeepsConsistent(elems: seq<StackElement>, m: ReferenceMap, st: Links, linked: set<int>, groups: seq<int>,
                           rank: seq<nat>, clock: nat, e: int)
    requires Consistent(elems, m, st, linked, groups, rank, clock) && e !in linked && Member(elems, m, st, e)
    ensures TopsInStack(elems, groups) && -1 <= st.references[Slot(elems, m, e)] < |elems|
    ensures Consistent(elems, m, AddedLinks(elems, m, st, groups, e), linked + {e}, AddedGroups(elems, groups, e),
                       rank[e := clock], clock + 1)
  {
    AddReferenceValid(elems, m, st, linked, groups, e);
    AddReferenceRanked(elems, m, st, linked, groups, rank, clock, e);
  }

  /** `removeReference` keeps the lists consistent. */
  lemma RemoveKeepsConsistent(elems: seq<StackElement>, m: ReferenceMap, st: Links, linked: set<int>, groups: seq<int>,
                              rank: seq<nat>, clock: nat, e: int)
    requires Consistent(elems, m, st, linked, groups, rank, clock) && e in linked
    ensures TopsInStack(elems, groups) && LinksFit(st, e)
    ensures Consistent(elems, m, RemovedLinks(elems, m, st, groups, e), linked - {e}, RemovedGroups(elems, st, groups, e),
                       rank, clock)
  {
    RemoveReferenceValid(elems, m, st, linked, groups, rank, clock, e);
  }

  /** `addReference` of a variable e: on top of its slot's list, or of its group in stack memory. */
  method LinkElement(elems: seq<StackElement>, m: ReferenceMap, st: Links, ghost linked: set<int>, ghost groups: seq<int>,
                     ghost rank: seq<nat>, ghost clock: nat, e: int)
      returns (r: Links, ghost groups': seq<int>)
    requires Consistent(elems, m, st, linked, groups, rank, clock) && e !in linked && Member(elems, m, st, e)
    ensures TopsInStack(elems, groups) && -1 <= st.references[Slot(elems, m, e)] < |elems|
    ensures r == AddedLinks(elems, m, st, groups, e) && groups' == AddedGroups(elems, groups, e)
    ensures Consistent(elems, m, r, linked + {e}, groups', rank[e := clock], clock + 1)
  {
    AddKeepsConsistent(elems, m, st, linked, groups, rank, clock, e);
    groups' := AddedGroups(elems, groups, e);
    if IsStackMemory(elems[e]) {
      r := LinkTemp(elems, m, st, linked, groups, e);
    } else {
      r := Push(st, Root(GetReferencePosition(m, elems[e]) as int), e);
    }
  }
}
