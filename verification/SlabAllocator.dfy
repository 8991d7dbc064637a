/**
 The slab allocator: blocks of N slots, three lists of blocks by occupancy, and two lists of
 slots in each block. A payload's destructor may call back into the allocator; what it does
 is an arbitrary tree of calls.
 */
module SlabAllocator {
  import opened Basics
  import opened IntrusiveLink

  datatype Slot = Slot(block: nat, index: nat)

  /** Every link in the allocator. That a link's owner can be read off its address is the
      source's `unsafe_get`. */
  datatype Addr =
    | FirstFree | FirstUsed | FirstPartial
    | BlockLink(block: nat) | FreeHead(block: nat) | UsedHead(block: nat)
    | FreeLink(slot: Slot) | UsedLink(slot: Slot)

  type Lists = map<Addr, seq<Addr>>

  predicate IsBlockList(h: Addr) { h.FirstFree? || h.FirstUsed? || h.FirstPartial? }

  // --------------------------------------------------------------------------
  // The shape
  // --------------------------------------------------------------------------

  /** `used` are the slots with a live payload; `transit` are slots between the two lists;
      `held` are blocks that an operation in progress has unlinked; `working` is the block, if
      any, whose slots are being moved while it is still in its old list. */
  datatype Shape = ShapeOf(lists: Lists, blocks: set<nat>, used: set<Slot>, transit: set<Slot>, held: set<nat>,
    working: Option<nat>)

  /** Lists hold links of their own kind only. */
  ghost predicate Typed(lists: Lists) {
    && FirstFree in lists && FirstUsed in lists && FirstPartial in lists
    && forall h, a | InList(lists, h, a) :: Fits(h, a)
  }

  predicate Fits(h: Addr, a: Addr) {
    match h
    case FirstFree | FirstUsed | FirstPartial => a.BlockLink?
    case FreeHead(b) => a.FreeLink? && a.slot.block == b
    case UsedHead(b) => a.UsedLink? && a.slot.block == b
    case _ => false
  }

  /** The list a block belongs in. */
  function Home(lists: Lists, b: nat): Addr
    requires FreeHead(b) in lists && UsedHead(b) in lists
  {
    if lists[UsedHead(b)] == [] then FirstFree else if lists[FreeHead(b)] == [] then FirstUsed else FirstPartial
  }

  /** A slot is in exactly one of its block's lists, or in transit; and live exactly if used. */
  ghost predicate SlotOk(s: Shape, slot: Slot) {
    && (InList(s.lists, UsedHead(slot.block), UsedLink(slot)) <==> slot in s.used)
    && (InList(s.lists, FreeHead(slot.block), FreeLink(slot)) <==> slot !in s.used && slot !in s.transit)
    && !(slot in s.used && slot in s.transit)
  }

  /** A block is in the list that matches its occupancy, unless it is held or worked on; in no
      more than one, as every link is. */
  ghost predicate BlockOk(n: nat, s: Shape, b: nat) {
    && FreeHead(b) in s.lists && UsedHead(b) in s.lists
    && (forall a <- s.lists[FreeHead(b)] :: a.FreeLink? && a.slot.index < n)
    && (forall a <- s.lists[UsedHead(b)] :: a.UsedLink? && a.slot.index < n)
    && (forall i: nat | i < n :: SlotOk(s, Slot(b, i)))
    && (b !in s.held && s.working != Some(b) ==> InList(s.lists, Home(s.lists, b), BlockLink(b)))
    && (b !in s.held <==> InSome(s.lists, BlockLink(b)))
    && (forall t <- s.transit | t.block == b :: b in s.held || s.working == Some(b))
  }

  ghost predicate ShapeOk(n: nat, s: Shape) {
    && Typed(s.lists) && (forall b <- s.blocks :: BlockOk(n, s, b))
    && (forall h, a | InList(s.lists, h, a) && IsBlockList(h) && a.BlockLink? :: a.block in s.blocks)
    && (forall t <- s.used + s.transit :: t.block in s.blocks && t.index < n) && s.held <= s.blocks
    && (s.working.Some? ==> s.working.value in s.blocks)
  }

  /** Nothing about any block but `b` differs. */
  ghost predicate Elsewhere(s: Shape, s': Shape, b: nat) {
    && s'.lists.Keys == s.lists.Keys && s'.blocks == s.blocks
    && (forall c: nat | c != b :: FreeHead(c) in s.lists ==> s'.lists[FreeHead(c)] == s.lists[FreeHead(c)])
    && (forall c: nat | c != b :: UsedHead(c) in s.lists ==> s'.lists[UsedHead(c)] == s.lists[UsedHead(c)])
    && (forall h, a | a != BlockLink(b) && IsBlockList(h) :: InList(s'.lists, h, a) <==> InList(s.lists, h, a))
    && (forall t: Slot | t.block != b :: (t in s'.used <==> t in s.used) && (t in s'.transit <==> t in s.transit))
    && (forall c: nat | c != b :: (c in s'.held <==> c in s.held) && (s'.working == Some(c) <==> s.working == Some(c)))
  }

  lemma ElsewhereKeeps(n: nat, s: Shape, s': Shape, b: nat, c: nat)
    requires Elsewhere(s, s', b) && c != b && BlockOk(n, s, c) && Typed(s.lists) && Typed(s'.lists)
    ensures BlockOk(n, s', c)
  {
    assert s'.lists[FreeHead(c)] == s.lists[FreeHead(c)] && s'.lists[UsedHead(c)] == s.lists[UsedHead(c)];
    forall i: nat | i < n ensures SlotOk(s', Slot(c, i)) {
      assert SlotOk(s, Slot(c, i));
    }
    if InSome(s.lists, BlockLink(c)) {
      var h :| InList(s.lists, h, BlockLink(c));
      assert InList(s'.lists, h, BlockLink(c));
    }
    if InSome(s'.lists, BlockLink(c)) {
      var h :| InList(s'.lists, h, BlockLink(c));
      assert InList(s.lists, h, BlockLink(c));
    }
  }

  lemma OneBlockKeeps(n: nat, s: Shape, s': Shape, b: nat)
    requires ShapeOk(n, s) && Elsewhere(s, s', b) && Typed(s'.lists) && b in s.blocks && BlockOk(n, s', b)
    requires (forall t <- s'.used + s'.transit | t.block == b :: t.index < n)
    ensures ShapeOk(n, s')
  {
    forall c <- s'.blocks ensures BlockOk(n, s', c) {
      if c != b { ElsewhereKeeps(n, s, s', b, c); }
    }
    forall h, a | InList(s'.lists, h, a) && IsBlockList(h) && a.BlockLink? ensures a.block in s'.blocks {
      if a != BlockLink(b) { assert InList(s.lists, h, a); }
    }
    forall t <- s'.used + s'.transit ensures t.block in s'.blocks && t.index < n {
      if t.block != b { assert t in s.used + s.transit; }
    }
  }

  /** Between operations a block is in the one list that matches its occupancy and in no other,
      and a block that a destroy in progress has unlinked is in none. */
  lemma BlockInItsListOnly(n: nat, s: Shape, next: map<Addr, Addr>, prev: map<Addr, Addr>, b: nat, h: Addr)
    requires ShapeOk(n, s) && WellLinked(next, prev, s.lists) && s.working == None && b in s.blocks
    ensures FreeHead(b) in s.lists && UsedHead(b) in s.lists
    ensures b !in s.held ==> (InList(s.lists, h, BlockLink(b)) <==> h == Home(s.lists, b))
    ensures b in s.held ==> !InList(s.lists, h, BlockLink(b))
  {
    assert BlockOk(n, s, b);
    if InList(s.lists, h, BlockLink(b)) { assert InSome(s.lists, BlockLink(b)); }
  }

  /** A slot of a block is used, free or in transit: in just one of its block's two lists, and
      once, or in neither. */
  lemma SlotInOneList(n: nat, s: Shape, next: map<Addr, Addr>, prev: map<Addr, Addr>, slot: Slot, h: Addr, a: Addr)
    requires ShapeOk(n, s) && WellLinked(next, prev, s.lists) && slot.block in s.blocks && slot.index < n
    requires (a == FreeLink(slot) || a == UsedLink(slot)) && InList(s.lists, h, a)
    ensures slot !in s.transit
            && if slot in s.used then a == UsedLink(slot) && h == UsedHead(slot.block)
               else a == FreeLink(slot) && h == FreeHead(slot.block)
    ensures forall i, j | 0 <= i < j < |s.lists[h]| :: s.lists[h][i] != s.lists[h][j]
  {
    hide ShapeOk, WellLinked, BlockOk;
    SlotFacts(n, s, slot);
    assert Fits(h, a);
    MembersDistinct(next, prev, s.lists, h);
  }

  /** In the partial list and in the free list every block has a free slot. */
  lemma PickHasRoom(n: nat, s: Shape, h: Addr, b: nat)
    requires n > 0 && ShapeOk(n, s) && s.working == None && (h.FirstPartial? || h.FirstFree?)
             && InList(s.lists, h, BlockLink(b))
    requires forall g | InList(s.lists, g, BlockLink(b)) :: g == h
    ensures b in s.blocks && b !in s.held && FreeHead(b) in s.lists && s.lists[FreeHead(b)] != []
  {
    assert BlockOk(n, s, b);
    assert InSome(s.lists, BlockLink(b));
    assert h == Home(s.lists, b);
    assert SlotOk(s, Slot(b, 0));
    assert Slot(b, 0) in s.transit ==> b in s.held;
  }

  // --------------------------------------------------------------------------
  // The six moves of a link
  // --------------------------------------------------------------------------

  /** The list of `h` gains or loses `a`. */
  ghost predicate ListMoved(lists: Lists, lists': Lists, h: Addr, a: Addr) {
    && h in lists && lists'.Keys == lists.Keys && lists' == lists[h := lists'[h]]
    && (forall x :: x != a ==> (x in lists'[h] <==> x in lists[h]))
  }

  lemma MovedTyped(lists: Lists, lists': Lists, h: Addr, a: Addr)
    requires Typed(lists) && ListMoved(lists, lists', h, a) && Fits(h, a)
    ensures Typed(lists')
  {
    forall g, x | InList(lists', g, x) ensures Fits(g, x) {
      if g != h || x != a { assert InList(lists, g, x); }
    }
  }

  /** Moving one slot link of block `b`, held or worked on. */
  lemma SlotMoveKeeps(n: nat, s: Shape, s': Shape, slot: Slot, h: Addr, a: Addr)
    requires ShapeOk(n, s) && slot.block in s.blocks && slot.index < n
    requires (slot.block in s.held || s.working == Some(slot.block))
    requires (h == FreeHead(slot.block) && a == FreeLink(slot)) || (h == UsedHead(slot.block) && a == UsedLink(slot))
    requires ListMoved(s.lists, s'.lists, h, a) && s'.blocks == s.blocks && s'.held == s.held && s'.working == s.working
    requires s'.used + s'.transit <= s.used + s.transit + {slot}
    requires forall t | t != slot :: (t in s'.used <==> t in s.used) && (t in s'.transit <==> t in s.transit)
    requires SlotOk(s', slot)
    ensures ShapeOk(n, s')
  {
    var b := slot.block;
    MovedTyped(s.lists, s'.lists, h, a);
    assert BlockOk(n, s, b);
    forall i: nat | i < n ensures SlotOk(s', Slot(b, i)) {
      if i != slot.index { assert SlotOk(s, Slot(b, i)); }
    }
    SameBlockLists(s.lists, s'.lists, h, a, b);
    forall t <- s'.used + s'.transit | t.block == b ensures t.index < n {}
    assert Elsewhere(s, s', b) by {
      forall g, x | x != BlockLink(b) && IsBlockList(g) ensures InList(s'.lists, g, x) <==> InList(s.lists, g, x) {}
    }
    OneBlockKeeps(n, s, s', b);
  }

  lemma SameBlockLists(lists: Lists, lists': Lists, h: Addr, a: Addr, b: nat)
    requires ListMoved(lists, lists', h, a) && a != BlockLink(b)
    ensures InSome(lists, BlockLink(b)) <==> InSome(lists', BlockLink(b))
  {
    if InSome(lists, BlockLink(b)) {
      var g :| InList(lists, g, BlockLink(b));
      assert InList(lists', g, BlockLink(b));
    }
    if InSome(lists', BlockLink(b)) {
      var g :| InList(lists', g, BlockLink(b));
      assert InList(lists, g, BlockLink(b));
    }
  }

  /** Unlinking a block makes it held. */
  lemma UnlinkBlockKeeps(n: nat, s: Shape, s': Shape, h: Addr, b: nat)
    requires ShapeOk(n, s) && b in s.blocks && b !in s.held && IsBlockList(h) && InList(s.lists, h, BlockLink(b))
    requires forall g | InList(s.lists, g, BlockLink(b)) :: g == h
    requires ListMoved(s.lists, s'.lists, h, BlockLink(b)) && BlockLink(b) !in s'.lists[h]
    requires s' == s.(lists := s'.lists, held := s.held + {b}, working := None)
             && (s.working == None || s.working == Some(b))
    ensures ShapeOk(n, s')
  {
    MovedTyped(s.lists, s'.lists, h, BlockLink(b));
    assert BlockOk(n, s, b);
    forall i: nat | i < n ensures SlotOk(s', Slot(b, i)) { assert SlotOk(s, Slot(b, i)); }
    forall g ensures !InList(s'.lists, g, BlockLink(b)) {
      assert g != h ==> (InList(s'.lists, g, BlockLink(b)) <==> InList(s.lists, g, BlockLink(b)));
    }
    OneBlockKeeps(n, s, s', b);
  }

  /** Linking a held block where it belongs, with no slot of it in transit. */
  lemma LinkBlockKeeps(n: nat, s: Shape, s': Shape, b: nat)
    requires ShapeOk(n, s) && b in s.blocks && b in s.held && s.working == None
    requires forall t <- s.transit :: t.block != b
    requires BlockOk(n, s, b) && ListMoved(s.lists, s'.lists, Home(s.lists, b), BlockLink(b))
             && BlockLink(b) in s'.lists[Home(s.lists, b)]
    requires s' == s.(lists := s'.lists, held := s.held - {b})
    ensures ShapeOk(n, s')
  {
    MovedTyped(s.lists, s'.lists, Home(s.lists, b), BlockLink(b));
    forall i: nat | i < n ensures SlotOk(s', Slot(b, i)) { assert SlotOk(s, Slot(b, i)); }
    assert InList(s'.lists, Home(s'.lists, b), BlockLink(b));
    OneBlockKeeps(n, s, s', b);
  }

  /** The slot lists of every block are as they were. */
  ghost predicate SlotListsKept(lists: Lists, lists': Lists) {
    lists'.Keys == lists.Keys && forall h <- lists | !IsBlockList(h) :: lists'[h] == lists[h]
  }

  /** A block outside the free list has a live payload. */
  lemma PickHasUsed(n: nat, s: Shape, h: Addr, b: nat)
    requires ShapeOk(n, s) && s.working == None && (h.FirstPartial? || h.FirstUsed?) && InList(s.lists, h, BlockLink(b))
    requires forall g | InList(s.lists, g, BlockLink(b)) :: g == h
    ensures b in s.blocks && b !in s.held && UsedHead(b) in s.lists && s.lists[UsedHead(b)] != []
  {
    assert BlockOk(n, s, b);
    assert InSome(s.lists, BlockLink(b));
    assert h == Home(s.lists, b);
  }

  /** The first link of a block's free list is a free slot of the block. */
  lemma FirstFreeSlot(n: nat, s: Shape, b: nat)
    requires ShapeOk(n, s) && b in s.blocks && FreeHead(b) in s.lists && s.lists[FreeHead(b)] != []
    ensures var a := s.lists[FreeHead(b)][0];
            a.FreeLink? && a.slot.block == b && a.slot.index < n && a.slot !in s.used && a.slot !in s.transit
  {
    assert BlockOk(n, s, b);
    var a := s.lists[FreeHead(b)][0];
    assert InList(s.lists, FreeHead(b), a) && Fits(FreeHead(b), a);
    assert SlotOk(s, Slot(b, a.slot.index));
  }

  lemma FirstUsedSlot(n: nat, s: Shape, b: nat)
    requires ShapeOk(n, s) && b in s.blocks && UsedHead(b) in s.lists && s.lists[UsedHead(b)] != []
    ensures var a := s.lists[UsedHead(b)][0]; a.UsedLink? && a.slot.block == b && a.slot in s.used
  {
    assert BlockOk(n, s, b);
    var a := s.lists[UsedHead(b)][0];
    assert InList(s.lists, UsedHead(b), a) && Fits(UsedHead(b), a);
    assert SlotOk(s, Slot(b, a.slot.index));
  }

  lemma FirstBlock(n: nat, s: Shape, h: Addr)
    requires ShapeOk(n, s) && IsBlockList(h) && h in s.lists && s.lists[h] != []
    ensures s.lists[h][0].BlockLink? && s.lists[h][0].block in s.blocks && InList(s.lists, h, s.lists[h][0])
  {
    var a := s.lists[h][0];
    assert InList(s.lists, h, a) && Fits(h, a);
  }

  /** No slot of a block in its list is in transit. */
  lemma NoTransit(n: nat, s: Shape, b: nat)
    requires ShapeOk(n, s) && b in s.blocks && b !in s.held && s.working != Some(b)
    ensures forall t <- s.transit :: t.block != b
  {
    assert BlockOk(n, s, b);
  }

  // --------------------------------------------------------------------------
  // New blocks
  // --------------------------------------------------------------------------

  /** The free links of slots `i` to `n - 1` of block `b`. */
  function FreeRun(b: nat, i: nat, n: nat): seq<Addr>
    requires i <= n
  {
    seq(n - i, (j: nat) => FreeLink(Slot(b, i + j)))
  }

  /** A block all of whose slots are free joins, held. */
  lemma NewBlockKeeps(n: nat, s: Shape, s': Shape, b: nat)
    requires ShapeOk(n, s) && b !in s.blocks && n > 0 && !InSome(s.lists, BlockLink(b))
    requires s' ==
               s.(lists := s.lists[FreeHead(b) := FreeRun(b, 0, n)][UsedHead(b) := []], blocks := s.blocks + {b},
                  held := s.held + {b})
    ensures ShapeOk(n, s')
  {
    forall h, a | InList(s'.lists, h, a) ensures Fits(h, a) && (IsBlockList(h) ==> InList(s.lists, h, a)) {
      if h != FreeHead(b) && h != UsedHead(b) { assert InList(s.lists, h, a); }
    }
    forall c <- s'.blocks ensures BlockOk(n, s', c) {
      if c == b {
        NewBlockIsFree(n, s, s', b);
      } else {
        assert s'.lists[FreeHead(c)] == s.lists[FreeHead(c)] && s'.lists[UsedHead(c)] == s.lists[UsedHead(c)];
        OldBlockKept(n, s, s', b, c);
      }
    }
  }

  lemma OldBlockKept(n: nat, s: Shape, s': Shape, b: nat, c: nat)
    requires BlockOk(n, s, c) && c != b && !InSome(s.lists, BlockLink(b)) && Typed(s.lists)
    requires s' ==
               s.(lists := s.lists[FreeHead(b) := FreeRun(b, 0, n)][UsedHead(b) := []], blocks := s.blocks + {b},
                  held := s.held + {b})
    ensures BlockOk(n, s', c)
  {
    forall i: nat | i < n ensures SlotOk(s', Slot(c, i)) { assert SlotOk(s, Slot(c, i)); }
    if InSome(s.lists, BlockLink(c)) {
      var h := BlockInBlockList(s.lists, c);
      assert InList(s'.lists, h, BlockLink(c));
    }
    if InSome(s'.lists, BlockLink(c)) {
      var h :| InList(s'.lists, h, BlockLink(c));
      assert InList(s.lists, h, BlockLink(c));
    }
  }

  lemma NewBlockIsFree(n: nat, s: Shape, s': Shape, b: nat)
    requires ShapeOk(n, s) && b !in s.blocks && n > 0 && !InSome(s.lists, BlockLink(b))
    requires s' ==
               s.(lists := s.lists[FreeHead(b) := FreeRun(b, 0, n)][UsedHead(b) := []], blocks := s.blocks + {b},
                  held := s.held + {b})
    ensures BlockOk(n, s', b)
  {
    forall i: nat | i < n ensures SlotOk(s', Slot(b, i)) {
      assert FreeRun(b, 0, n)[i] == FreeLink(Slot(b, i));
      assert Slot(b, i) !in s.used + s.transit;
    }
    forall h ensures !InList(s'.lists, h, BlockLink(b)) {
      assert h != FreeHead(b) && h != UsedHead(b) ==>
               (InList(s'.lists, h, BlockLink(b)) <==> InList(s.lists, h, BlockLink(b)));
    }
    forall t <- s'.transit ensures t.block != b { assert t in s.used + s.transit; }
  }

  // --------------------------------------------------------------------------
  // Addresses
  // --------------------------------------------------------------------------

  predicate IsHead(a: Addr) { IsBlockList(a) || a.FreeHead? || a.UsedHead? }

  function BlockNumber(a: Addr): nat {
    match a
    case BlockLink(b) => b case FreeHead(b) => b case UsedHead(b) => b
    case FreeLink(s) => s.block case UsedLink(s) => s.block
    case _ => 0
  }

  /** All the links of block `b` exist. */
  ghost predicate BlockPlaced(keys: set<Addr>, heads: set<Addr>, n: nat, b: nat) {
    && FreeHead(b) in heads && UsedHead(b) in heads && BlockLink(b) in keys
    && forall i: nat | i < n :: FreeLink(Slot(b, i)) in keys && UsedLink(Slot(b, i)) in keys
  }

  ghost predicate Placed(keys: set<Addr>, heads: set<Addr>, n: nat, blocks: set<nat>, nextBlock: nat) {
    && (forall h <- heads :: IsHead(h))
    && (forall b <- blocks :: b < nextBlock && BlockPlaced(keys, heads, n, b))
    && forall a <- keys :: IsBlockList(a) || BlockNumber(a) < nextBlock
  }

  /** Where `a` is in a list that has it. */
  lemma Position(list: seq<Addr>, a: Addr) returns (k: nat)
    requires a in list
    ensures k < |list| && list[k] == a
  {
    k :| 0 <= k < |list| && list[k] == a;
  }

  /** A slot link that is not in its own list is in none. */
  lemma SlotAlone(lists: Lists, slot: Slot)
    requires Typed(lists)
    ensures InSome(lists, UsedLink(slot)) <==> InList(lists, UsedHead(slot.block), UsedLink(slot))
    ensures InSome(lists, FreeLink(slot)) <==> InList(lists, FreeHead(slot.block), FreeLink(slot))
  {
    forall h | InList(lists, h, UsedLink(slot)) ensures h == UsedHead(slot.block) { assert Fits(h, UsedLink(slot)); }
    forall h | InList(lists, h, FreeLink(slot)) ensures h == FreeHead(slot.block) { assert Fits(h, FreeLink(slot)); }
  }

  lemma BlockInBlockList(lists: Lists, b: nat) returns (h: Addr)
    requires Typed(lists) && InSome(lists, BlockLink(b))
    ensures IsBlockList(h) && InList(lists, h, BlockLink(b))
  {
    h :| InList(lists, h, BlockLink(b));
    assert Fits(h, BlockLink(b));
  }

  lemma EmptyShape(n: nat, s: Shape)
    requires s == ShapeOf(map[FirstFree := [], FirstUsed := [], FirstPartial := []], {}, {}, {}, {}, None)
    ensures ShapeOk(n, s)
  {
  }

  /** What the shape says of one slot and its block. */
  lemma SlotFacts(n: nat, s: Shape, slot: Slot)
    requires ShapeOk(n, s) && slot.block in s.blocks && slot.index < n
    ensures Typed(s.lists) && FreeHead(slot.block) in s.lists && UsedHead(slot.block) in s.lists && SlotOk(s, slot)
    ensures slot in s.transit ==> slot.block in s.held || s.working == Some(slot.block)
  {
    assert BlockOk(n, s, slot.block);
  }

  lemma ActiveFacts(n: nat, s: Shape, slot: Slot)
    requires ShapeOk(n, s) && (slot in s.used || slot in s.transit)
    ensures slot.block in s.blocks && slot.index < n
  {
    assert slot in s.used + s.transit;
  }

  lemma BlockFacts(n: nat, s: Shape, b: nat)
    requires ShapeOk(n, s) && b in s.blocks
    ensures Typed(s.lists) && FreeHead(b) in s.lists && UsedHead(b) in s.lists
    ensures b !in s.held <==> InSome(s.lists, BlockLink(b))
    ensures b !in s.held && s.working != Some(b) ==> InList(s.lists, Home(s.lists, b), BlockLink(b))
    ensures BlockOk(n, s, b)
  {
  }

  lemma BlockListsThere(n: nat, s: Shape)
    requires ShapeOk(n, s)
    ensures FirstFree in s.lists && FirstUsed in s.lists && FirstPartial in s.lists
  {
  }

  /** A block is in no more than one list. */
  lemma OneList(next: map<Addr, Addr>, prev: map<Addr, Addr>, lists: Lists, h: Addr, a: Addr)
    requires WellLinked(next, prev, lists) && InList(lists, h, a)
    ensures forall g | InList(lists, g, a) :: g == h
  {
  }

  // --------------------------------------------------------------------------
  // The allocator
  // --------------------------------------------------------------------------

  /** What a destructor may do. A call that names a slot without a live payload is one that no
      correct destructor makes; it is left out. */
  datatype Call = Destroy(slot: Slot, destructor: seq<Call>) | Allocate(memory: bool) | Take

  /** Every payload has an identity of its own; each one created is live or was released, and no
      destructor was called twice or for a live payload. */
  ghost predicate BooksOk(payloads: map<Slot, nat>, nextId: nat, created: nat, released: nat, destroyed: seq<nat>) {
    && created == released + |payloads.Keys|
    && (forall s <- payloads :: payloads[s] < nextId && payloads[s] !in destroyed)
    && (forall s <- payloads, t <- payloads | payloads[s] == payloads[t] :: s == t)
    && (forall x <- destroyed :: x < nextId) && Distinct(destroyed)
  }

  lemma BooksAllocate(payloads: map<Slot, nat>, nextId: nat, created: nat, released: nat, destroyed: seq<nat>,
      slot: Slot)
    requires BooksOk(payloads, nextId, created, released, destroyed) && slot !in payloads
    ensures BooksOk(payloads[slot := nextId], nextId + 1, created + 1, released, destroyed)
    ensures payloads[slot := nextId].Keys == payloads.Keys + {slot}
  {
    assert payloads[slot := nextId].Keys == payloads.Keys + {slot};
  }

  lemma BooksRelease(payloads: map<Slot, nat>, nextId: nat, created: nat, released: nat, destroyed: seq<nat>,
      slot: Slot)
    requires BooksOk(payloads, nextId, created, released, destroyed) && slot in payloads
    ensures BooksOk(payloads - {slot}, nextId, created, released + 1, destroyed)
    ensures BooksOk(payloads - {slot}, nextId, created, released + 1, destroyed + [payloads[slot]])
    ensures (payloads - {slot}).Keys == payloads.Keys - {slot}
  {
    KeyRemoved(payloads, slot);
    assert Distinct(destroyed) && payloads[slot] !in destroyed;
    DistinctPush(destroyed, payloads[slot]);
  }

  lemma KeyRemoved(payloads: map<Slot, nat>, slot: Slot)
    requires slot in payloads
    ensures (payloads - {slot}).Keys == payloads.Keys - {slot}
    ensures |(payloads - {slot}).Keys| + 1 == |payloads.Keys|
  {
    assert (payloads - {slot}).Keys + {slot} == payloads.Keys;
  }

  lemma AddRemove<T>(s: set<T>, x: T)
    ensures x !in s ==> s + {x} - {x} == s
    ensures x in s ==> s + {x} == s
  {
  }

  lemma DistinctPush(s: seq<nat>, x: nat)
    requires Distinct(s) && x !in s
    ensures Distinct(s + [x])
  {
  }

  /** The heads of the three block lists. */
  method BlockLists() returns (space: LinkSpace<Addr>)
    ensures fresh(space) && space.Valid()
    ensures space.lists == map[FirstFree := [], FirstUsed := [], FirstPartial := []]
    ensures space.next.Keys == {FirstFree, FirstUsed, FirstPartial}
  {
    hide WellLinked;
    space := new LinkSpace<Addr>();
    space.NewHead(FirstFree);
    space.NewHead(FirstUsed);
    space.NewHead(FirstPartial);
  }

  class Allocator {
    const n: nat
    const links: LinkSpace<Addr>
    var nextBlock: nat
    var payloads: map<Slot, nat>
    var nextId: nat
    ghost var blocks: set<nat>
    ghost var used: set<Slot>
    ghost var transit: set<Slot>
    ghost var held: set<nat>
    ghost var working: Option<nat>
    // lifetime records, and the destructor calls so far
    ghost var created: nat
    ghost var released: nat
    ghost var destroyed: seq<nat>

    ghost function Shape(): Shape
      reads this, links
    {
      ShapeOf(links.lists, blocks, used, transit, held, working)
    }

    ghost predicate Core()
      reads this, links
    {
      && n > 0 && links.Valid() && Placed(links.next.Keys, links.lists.Keys, n, blocks, nextBlock)
      && ShapeOk(n, Shape())
    }

    /** Live payloads are the used slots. */
    ghost predicate Books()
      reads this
    {
      payloads.Keys == used && BooksOk(payloads, nextId, created, released, destroyed)
    }

    ghost predicate Valid()
      reads this, links
    {
      Core() && Books() && working == None
    }

    constructor (n: nat)
      requires n > 0
      ensures Valid() && fresh(links) && this.n == n && blocks == {} && used == {} && created == released == 0
      ensures transit == {} && held == {} && destroyed == []
    {
      this.n := n;
      var space := BlockLists();
      links := space;
      nextBlock, payloads, nextId := 0, map[], 0;
      blocks, used, transit, held, working := {}, {}, {}, {}, None;
      created, released, destroyed := 0, 0, [];
      new;
      EmptyShape(n, Shape());
    }

    // ---- moves of one link -------------------------------------------------

    method UnlinkUsed(slot: Slot)
      requires Core() && slot in used && (slot.block in held || working == Some(slot.block))
      modifies links, this`used, this`transit
      ensures Core() && used == old(used) - {slot} && transit == old(transit) + {slot}
      ensures links.next.Keys == old(links.next.Keys) && links.lists.Keys == old(links.lists.Keys)
      ensures ListMoved(old(links.lists), links.lists, UsedHead(slot.block), UsedLink(slot))
    {
      hide ShapeOk;
      hide WellLinked;
      hide Typed;
      hide BlockOk;
      ghost var s := Shape();
      ActiveFacts(n, s, slot);
      SlotFacts(n, s, slot);
      ghost var k := Position(links.lists[UsedHead(slot.block)], UsedLink(slot));
      links.Unlink(UsedLink(slot), UsedHead(slot.block), k);
      used, transit := used - {slot}, transit + {slot};
      SlotMoveKeeps(n, s, Shape(), slot, UsedHead(slot.block), UsedLink(slot));
    }

    method LinkUsed(slot: Slot)
      requires Core() && slot in transit
      modifies links, this`used, this`transit
      ensures Core() && used == old(used) + {slot} && transit == old(transit) - {slot}
      ensures links.next.Keys == old(links.next.Keys)
      ensures UsedHead(slot.block) in old(links.lists)
      ensures links.lists ==
                old(links.lists)[UsedHead(slot.block) := [UsedLink(slot)] + old(links.lists)[UsedHead(slot.block)]]
    {
      hide ShapeOk;
      hide WellLinked;
      hide Typed;
      hide BlockOk;
      ghost var s := Shape();
      ActiveFacts(n, s, slot);
      SlotFacts(n, s, slot);
      assert BlockPlaced(links.next.Keys, links.lists.Keys, n, slot.block);
      SlotAlone(links.lists, slot);
      links.LinkedIff(UsedLink(slot));
      links.Link(UsedHead(slot.block), UsedLink(slot));
      used, transit := used + {slot}, transit - {slot};
      SlotMoveKeeps(n, s, Shape(), slot, UsedHead(slot.block), UsedLink(slot));
    }

    method UnlinkFree(slot: Slot)
      requires Core() && slot.block in blocks && slot.index < n && slot !in used && slot !in transit
      requires slot.block in held || working == Some(slot.block)
      modifies links, this`transit
      ensures Core() && transit == old(transit) + {slot}
      ensures links.next.Keys == old(links.next.Keys) && links.lists.Keys == old(links.lists.Keys)
      ensures ListMoved(old(links.lists), links.lists, FreeHead(slot.block), FreeLink(slot))
    {
      hide ShapeOk;
      hide WellLinked;
      hide Typed;
      hide BlockOk;
      ghost var s := Shape();
      SlotFacts(n, s, slot);
      ghost var k := Position(links.lists[FreeHead(slot.block)], FreeLink(slot));
      links.Unlink(FreeLink(slot), FreeHead(slot.block), k);
      transit := transit + {slot};
      SlotMoveKeeps(n, s, Shape(), slot, FreeHead(slot.block), FreeLink(slot));
    }

    method LinkFree(slot: Slot)
      requires Core() && slot in transit
      modifies links, this`transit
      ensures Core() && transit == old(transit) - {slot}
      ensures links.next.Keys == old(links.next.Keys)
      ensures FreeHead(slot.block) in old(links.lists)
      ensures links.lists ==
                old(links.lists)[FreeHead(slot.block) := [FreeLink(slot)] + old(links.lists)[FreeHead(slot.block)]]
    {
      hide ShapeOk;
      hide WellLinked;
      hide Typed;
      hide BlockOk;
      ghost var s := Shape();
      ActiveFacts(n, s, slot);
      SlotFacts(n, s, slot);
      assert BlockPlaced(links.next.Keys, links.lists.Keys, n, slot.block);
      SlotAlone(links.lists, slot);
      links.LinkedIff(FreeLink(slot));
      links.Link(FreeHead(slot.block), FreeLink(slot));
      transit := transit - {slot};
      SlotMoveKeeps(n, s, Shape(), slot, FreeHead(slot.block), FreeLink(slot));
    }

    method UnlinkBlock(b: nat)
      requires Core() && b in blocks && b !in held && (working == None || working == Some(b))
      modifies links, this`held, this`working
      ensures Core() && held == old(held) + {b} && working == None
      ensures links.next.Keys == old(links.next.Keys) && links.lists.Keys == old(links.lists.Keys)
      ensures SlotListsKept(old(links.lists), links.lists)
      ensures forall h <- old(links.lists) | BlockLink(b) !in old(links.lists)[h] ::
                links.lists[h] == old(links.lists)[h]
    {
      hide ShapeOk;
      hide WellLinked;
      hide Typed;
      hide BlockOk;
      ghost var s := Shape();
      BlockFacts(n, s, b);
      ghost var h := BlockInBlockList(links.lists, b);
      OneList(links.next, links.prev, links.lists, h, BlockLink(b));
      ghost var k := Position(links.lists[h], BlockLink(b));
      links.Unlink(BlockLink(b), h, k);
      held, working := held + {b}, None;
      UnlinkBlockKeeps(n, s, Shape(), h, b);
    }

    /** link_block: into the list that matches the block's occupancy. */
    method LinkBlock(b: nat)
      requires Core() && b in blocks && b in held && working == None && forall t <- transit :: t.block != b
      modifies links, this`held
      ensures Core() && held == old(held) - {b}
      ensures links.next.Keys == old(links.next.Keys) && links.lists.Keys == old(links.lists.Keys)
      ensures SlotListsKept(old(links.lists), links.lists)
    {
      hide ShapeOk;
      hide WellLinked;
      hide Typed;
      hide BlockOk;
      ghost var s := Shape();
      BlockFacts(n, s, b);
      assert BlockPlaced(links.next.Keys, links.lists.Keys, n, b);
      links.LinkedIff(BlockLink(b));
      if links.Linked(BlockLink(b)) { return; }
      var firstUsed := links.First(UsedHead(b));
      var firstFree := links.First(FreeHead(b));
      var home := if firstUsed == None then FirstFree else if firstFree == None then FirstUsed else FirstPartial;
      BlockListsThere(n, s);
      links.Link(home, BlockLink(b));
      held := held - {b};
      LinkBlockKeeps(n, s, Shape(), b);
    }

    // ---- blocks -------------------------------------------------------------

    /** reset_free_list: empties both slot lists and links every slot as free, lowest first. */
    method ResetFreeList(b: nat)
      requires links.Valid() && Typed(links.lists) && BlockPlaced(links.next.Keys, links.lists.Keys, n, b)
      requires forall h <- links.lists.Keys :: IsHead(h)
      modifies links
      ensures links.Valid() && links.next.Keys == old(links.next.Keys)
      ensures links.lists == old(links.lists)[FreeHead(b) := FreeRun(b, 0, n)][UsedHead(b) := []]
    {
      hide WellLinked;
      hide Typed;
      ghost var lists := links.lists;
      EmptyList(FreeHead(b));
      EmptyList(UsedHead(b));
      var i := n;
      assert FreeRun(b, n, n) == [];
      while i > 0
        invariant 0 <= i <= n && links.Valid() && links.next.Keys == old(links.next.Keys)
        invariant links.lists == lists[FreeHead(b) := FreeRun(b, i, n)][UsedHead(b) := []]
      {
        NotLinkedYet(lists, links.lists, b, i, n);
        links.LinkedIff(FreeLink(Slot(b, i - 1)));
        links.Link(FreeHead(b), FreeLink(Slot(b, i - 1)));
        assert [FreeLink(Slot(b, i - 1))] + FreeRun(b, i, n) == FreeRun(b, i - 1, n);
        i := i - 1;
      }
    }

    method EmptyList(h: Addr)
      requires links.Valid() && h in links.lists
      modifies links
      ensures links.Valid() && links.next.Keys == old(links.next.Keys) && links.lists == old(links.lists)[h := []]
    {
      hide WellLinked;
      ghost var lists := links.lists;
      var first := links.First(h);
      while first.Some?
        invariant links.Valid() && links.next.Keys == old(links.next.Keys)
        invariant h in links.lists && links.lists == lists[h := links.lists[h]]
        invariant first == if links.lists[h] == [] then None else Some(links.lists[h][0])
        decreases |links.lists[h]|
      {
        links.Unlink(first.value, h, 0);
        first := links.First(h);
      }
    }

    method NewSlotLinks(slot: Slot)
      requires links.Valid() && FreeLink(slot) !in links.next && UsedLink(slot) !in links.next
      modifies links
      ensures links.Valid() && links.lists == old(links.lists)
              && links.next.Keys == old(links.next.Keys) + {FreeLink(slot), UsedLink(slot)}
    {
      hide WellLinked;
      links.NewLink(FreeLink(slot));
      links.NewLink(UsedLink(slot));
    }

    method NewBlockLinks(b: nat)
      requires links.Valid() && forall a <- links.next :: IsBlockList(a) || BlockNumber(a) != b
      modifies links
      ensures links.Valid() && links.lists == old(links.lists)[FreeHead(b) := []][UsedHead(b) := []]
      ensures links.next.Keys == old(links.next.Keys) + {FreeHead(b), UsedHead(b), BlockLink(b)}
    {
      hide WellLinked;
      links.NewHead(FreeHead(b));
      links.NewHead(UsedHead(b));
      links.NewLink(BlockLink(b));
    }

    /** The links of a new block, none of them in a list. */
    method NewLinks(b: nat)
      requires links.Valid() && forall a <- links.next :: IsBlockList(a) || BlockNumber(a) != b
      modifies links
      ensures links.Valid() && links.lists == old(links.lists)[FreeHead(b) := []][UsedHead(b) := []]
      ensures links.next.Keys == old(links.next.Keys) + {FreeHead(b), UsedHead(b), BlockLink(b)} + SlotAddresses(b, n)
    {
      hide WellLinked;
      ghost var keys := links.next.Keys;
      NewBlockLinks(b);
      var i := 0;
      while i < n
        invariant 0 <= i <= n && links.Valid()
        invariant links.lists == old(links.lists)[FreeHead(b) := []][UsedHead(b) := []]
        invariant links.next.Keys == keys + {FreeHead(b), UsedHead(b), BlockLink(b)} + SlotAddresses(b, i)
      {
        SlotsNew(keys, b, i);
        NewSlotLinks(Slot(b, i));
        i := i + 1;
      }
    }

    /** A new block: all slots free, in no list yet. */
    method NewBlock() returns (b: nat)
      requires Core() && working == None
      modifies links, this`nextBlock, this`blocks, this`held
      ensures Core() && b !in old(blocks) && b !in old(held) && blocks == old(blocks) + {b} && held == old(held) + {b}
      ensures (forall t <- transit :: t.block != b) && FreeHead(b) in links.lists && links.lists[FreeHead(b)] != []
    {
      hide WellLinked;
      hide ShapeOk;
      hide Typed;
      ghost var s, keys := Shape(), links.next.Keys;
      b := nextBlock;
      FreshBlock(n, s, links.next, links.prev, blocks, nextBlock);
      nextBlock := nextBlock + 1;
      NewLinks(b);
      AddressesPlaced(links.next.Keys, links.lists.Keys, n, b, SlotAddresses(b, n));
      TypedGrows(s.lists, b);
      ResetFreeList(b);
      blocks, held := blocks + {b}, held + {b};
      NewBlockKeeps(n, s, Shape(), b);
      StillPlaced(keys, s.lists.Keys, links.next.Keys, links.lists.Keys, n, s.blocks, b);
    }

    // ---- the interface -------------------------------------------------------

    /** relink: takes a block out of its list and puts it where it belongs now. */
    method Relink(b: nat)
      requires Core() && b in blocks && b !in held && (working == None || working == Some(b)) && forall t <- transit ::
                 t.block != b
      modifies links, this`held, this`working
      ensures Core() && held == old(held) && working == None && SlotListsKept(old(links.lists), links.lists)
    {
      hide ShapeOk;
      hide WellLinked;
      hide Typed;
      hide BlockOk;
      hide Placed;
      hide BooksOk;
      UnlinkBlock(b);
      LinkBlock(b);
      assert held == old(held);
    }

    /** The block `allocate` takes a slot from: a partial one, else a free one, else a new one. It
        always has a free slot. None if there is none and no memory for another. */
    method PickBlock(memory: bool) returns (pick: Option<nat>)
      requires Core() && working == None
      modifies links, this`nextBlock, this`blocks, this`held
      ensures Core() && held == old(held) && old(blocks) <= blocks
      ensures pick.None? ==> !memory && Shape() == old(Shape())
      ensures pick.Some? ==>
                && pick.value in blocks && pick.value !in held
                && FreeHead(pick.value) in links.lists && links.lists[FreeHead(pick.value)] != []
      ensures FirstPartial in old(links.lists) && FirstFree in old(links.lists)
      ensures pick.Some? ==>
                if old(links.lists[FirstPartial]) != [] then BlockLink(pick.value) == old(links.lists[FirstPartial])[0]
                else if old(links.lists[FirstFree]) != [] then BlockLink(pick.value) == old(links.lists[FirstFree])[0]
                else pick.value !in old(blocks)
    {
      hide ShapeOk;
      hide WellLinked;
      hide Typed;
      hide BlockOk;
      hide Placed;
      hide BooksOk;
      BlockListsThere(n, Shape());
      var list := FirstPartial;
      var link := links.First(list);
      if link == None {
        list := FirstFree;
        link := links.First(list);
      }
      if link == None {
        if !memory { return None; }
        var b := NewBlock();
        LinkBlock(b);
        assert held == old(held);
        pick := Some(b);
      } else {
        FirstBlock(n, Shape(), list);
        OneList(links.next, links.prev, links.lists, list, link.value);
        PickHasRoom(n, Shape(), list, link.value.block);
        pick := Some(link.value.block);
      }
    }

    /** record_create, for the payload constructed in `slot`. */
    method RecordCreate(slot: Slot)
      requires BooksOk(payloads, nextId, created, released, destroyed) && slot !in payloads
      modifies this`payloads, this`nextId, this`created
      ensures BooksOk(payloads, nextId, created, released, destroyed) && payloads.Keys == old(payloads.Keys) + {slot}
      ensures payloads == old(payloads)[slot := old(nextId)] && nextId == old(nextId) + 1 && created == old(created) + 1
    {
      BooksAllocate(payloads, nextId, created, released, destroyed, slot);
      payloads, nextId, created := payloads[slot := nextId], nextId + 1, created + 1;
    }

    /** record_release, and the call of the destructor if there is one. */
    method RecordRelease(slot: Slot, destroys: bool)
      requires BooksOk(payloads, nextId, created, released, destroyed) && slot in payloads
      modifies this`payloads, this`released, this`destroyed
      ensures BooksOk(payloads, nextId, created, released, destroyed) && payloads.Keys == old(payloads.Keys) - {slot}
      ensures payloads == old(payloads) - {slot} && released == old(released) + 1
      ensures destroyed == if destroys then old(destroyed) + [old(payloads)[slot]] else old(destroyed)
    {
      BooksRelease(payloads, nextId, created, released, destroyed, slot);
      if destroys { destroyed := destroyed + [payloads[slot]]; }
      released, payloads := released + 1, payloads - {slot};
    }

    /** block__::allocate, and the relinking of the block. */
    method UseFreeSlot(b: nat) returns (slot: Slot)
      requires Core() && working == None && b in blocks && b !in held && FreeHead(b) in links.lists
               && links.lists[FreeHead(b)] != []
      modifies links, this`used, this`transit, this`held, this`working
      ensures Core() && working == None && held == old(held) && transit == old(transit)
      ensures slot !in old(used) && slot !in transit && used == old(used) + {slot}
              && FreeLink(slot) == old(links.lists)[FreeHead(b)][0]
    {
      hide ShapeOk;
      hide WellLinked;
      hide Typed;
      hide BlockOk;
      hide Placed;
      hide BooksOk;
      hide ListMoved;
      hide SlotListsKept;
      var free := links.First(FreeHead(b));
      FirstFreeSlot(n, Shape(), b);
      NoTransit(n, Shape(), b);
      slot := free.value.slot;
      WorkingKeeps(n, Shape(), b);
      working := Some(b);
      UnlinkFree(slot);
      LinkUsed(slot);
      assert transit == old(transit);
      Relink(b);
    }

    /** The slot an allocation takes: the first free one of the block picked. */
    method ReserveSlot(memory: bool) returns (r: Option<Slot>)
      requires Core() && working == None
      modifies links, this`nextBlock, this`blocks, this`held, this`used, this`transit, this`working
      ensures Core() && working == None && held == old(held) && transit == old(transit) && old(blocks) <= blocks
      ensures r.None? ==> !memory && used == old(used)
      ensures r.Some? ==> r.value !in old(used) && r.value !in transit && used == old(used) + {r.value}
    {
      hide ShapeOk, WellLinked, Typed, BlockOk, Placed;
      var pick := PickBlock(memory);
      if pick == None { return None; }
      var slot := UseFreeSlot(pick.value);
      r := Some(slot);
    }

    /** A payload in a slot that had none; nothing else changes hands. */
    method Allocate(memory: bool) returns (r: Option<Slot>)
      requires Valid()
      modifies this, links
      ensures Valid() && held == old(held) && transit == old(transit) && destroyed == old(destroyed)
              && old(blocks) <= blocks
      ensures r.None? ==>
                !memory && used == old(used) && payloads == old(payloads) && created == old(created)
                && released == old(released)
      ensures r.Some? ==>
                && r.value !in old(used) && r.value !in transit && used == old(used) + {r.value}
                && payloads == old(payloads)[r.value := old(nextId)] && nextId == old(nextId) + 1
                && created == old(created) + 1 && released == old(released)
    {
      hide ShapeOk;
      hide WellLinked;
      hide Typed;
      hide BlockOk;
      hide Placed;
      hide BooksOk;
      hide ListMoved;
      hide SlotListsKept;
      r := ReserveSlot(memory);
      if r.Some? { RecordCreate(r.value); }
    }

    /** The first half of `destroy`: the slot leaves the used list, and its block, if it is in a
        list, leaves that. */
    method Detach(slot: Slot) returns (blockWasLinked: bool)
      requires Core() && working == None && slot in used
      modifies links, this`used, this`transit, this`held, this`working
      ensures Core() && working == None && used == old(used) - {slot} && transit == old(transit) + {slot}
              && slot !in old(transit)
      ensures blockWasLinked <==> slot.block !in old(held)
      ensures held == old(held) + {slot.block} && slot.block in blocks
      ensures blockWasLinked ==> forall t <- old(transit) :: t.block != slot.block
    {
      hide ShapeOk;
      hide WellLinked;
      hide Typed;
      hide BlockOk;
      hide Placed;
      hide BooksOk;
      hide ListMoved;
      hide SlotListsKept;
      var b := slot.block;
      ActiveFacts(n, Shape(), slot);
      BlockFacts(n, Shape(), b);
      SlotFacts(n, Shape(), slot);
      BlockLinkThere(links.next.Keys, links.lists.Keys, n, blocks, nextBlock, b);
      links.LinkedIff(BlockLink(b));
      blockWasLinked := links.Linked(BlockLink(b));
      if blockWasLinked {
        NoTransit(n, Shape(), b);
        WorkingKeeps(n, Shape(), b);
        working := Some(b);
      }
      UnlinkUsed(slot);
      if blockWasLinked { UnlinkBlock(b); }
    }

    /** The second half of `destroy`: the slot becomes free, and the block is linked again by the
        call that unlinked it. */
    method Attach(slot: Slot, blockWasLinked: bool)
      requires Core() && working == None && slot in transit && slot.block in held && slot.block in blocks
      requires blockWasLinked ==> forall t <- transit | t != slot :: t.block != slot.block
      modifies links, this`transit, this`held
      ensures Core() && transit == old(transit) - {slot}
              && held == if blockWasLinked then old(held) - {slot.block} else old(held)
      ensures FreeHead(slot.block) in links.lists && [FreeLink(slot)] <= links.lists[FreeHead(slot.block)]
    {
      hide ShapeOk;
      hide WellLinked;
      hide Typed;
      hide BlockOk;
      hide Placed;
      hide BooksOk;
      hide ListMoved;
      LinkFree(slot);
      if blockWasLinked { LinkBlock(slot.block); }
    }

    /** Destroys a live payload. Its destructor runs with the slot in neither list and the block
        out of every list, and may do anything that leaves this slot alone. */
    method Destroy(slot: Slot, destructor: seq<Call>)
      requires Valid() && slot in used
      modifies this, links
      ensures Valid() && held == old(held) && transit == old(transit) && old(blocks) <= blocks
      ensures old(destroyed) + [old(payloads)[slot]] <= destroyed
      ensures slot !in used && FreeHead(slot.block) in links.lists
              && [FreeLink(slot)] <= links.lists[FreeHead(slot.block)]
      ensures destructor == [] ==>
                used == old(used) - {slot} && payloads == old(payloads) - {slot} && released == old(released) + 1
                && created == old(created)
      decreases destructor, 1
    {
      hide ShapeOk;
      hide WellLinked;
      hide Typed;
      hide BlockOk;
      hide Placed;
      hide BooksOk;
      hide ListMoved;
      hide SlotListsKept;
      var blockWasLinked := Detach(slot);
      RecordRelease(slot, true);
      Run(destructor);
      TransitNotUsed(n, Shape(), slot);
      Attach(slot, blockWasLinked);
      AddRemove(old(transit), slot);
      AddRemove(old(held), slot.block);
    }

    /** One call made by a destructor. */
    method Perform(call: Call)
      requires Valid()
      modifies this, links
      ensures Valid() && held == old(held) && transit == old(transit) && old(blocks) <= blocks
              && old(destroyed) <= destroyed
      decreases call
    {
      hide ShapeOk;
      hide WellLinked;
      hide Typed;
      hide BlockOk;
      hide Placed;
      hide BooksOk;
      hide ListMoved;
      hide SlotListsKept;
      match call
      case Destroy(slot, destructor) =>
        if slot in payloads { Destroy(slot, destructor); }
      case Allocate(memory) => var _ := Allocate(memory);
      case Take => var _ := TakeUsed();
    }

    /** What a destructor does. */
    method Run(calls: seq<Call>)
      requires Valid()
      modifies this, links
      ensures Valid() && held == old(held) && transit == old(transit) && old(blocks) <= blocks
              && old(destroyed) <= destroyed
      ensures calls == [] ==>
                used == old(used) && payloads == old(payloads) && released == old(released) && created == old(created)
      decreases calls, 0
    {
      hide ShapeOk;
      hide WellLinked;
      hide Typed;
      hide BlockOk;
      hide Placed;
      hide BooksOk;
      hide ListMoved;
      hide SlotListsKept;
      if calls == [] { return; }
      var i := 0;
      while i < |calls|
        invariant 0 <= i <= |calls|
        invariant Valid() && held == old(held) && transit == old(transit) && old(blocks) <= blocks
                  && old(destroyed) <= destroyed
      {
        Perform(calls[i]);
        i := i + 1;
      }
    }

    /** The block `take_used` takes a payload from. */
    method PickUsed() returns (pick: Option<nat>)
      requires Core() && working == None
      ensures FirstUsed in links.lists && FirstPartial in links.lists
      ensures pick.None? ==> forall s <- used :: s.block in held
      ensures pick.Some? ==>
                && pick.value in blocks && pick.value !in held
                && (if links.lists[FirstUsed] != [] then BlockLink(pick.value) == links.lists[FirstUsed][0]
                    else links.lists[FirstPartial] != [] && BlockLink(pick.value) == links.lists[FirstPartial][0])
                && UsedHead(pick.value) in links.lists && links.lists[UsedHead(pick.value)] != []
    {
      hide ShapeOk;
      hide WellLinked;
      hide Typed;
      hide BlockOk;
      hide Placed;
      hide BooksOk;
      hide ListMoved;
      hide SlotListsKept;
      BlockListsThere(n, Shape());
      var list := FirstUsed;
      var link := links.First(list);
      if link == None {
        list := FirstPartial;
        link := links.First(list);
        if link == None {
          NothingListed(n, Shape());
          return None;
        }
      }
      FirstBlock(n, Shape(), list);
      OneList(links.next, links.prev, links.lists, list, link.value);
      PickHasUsed(n, Shape(), list, link.value.block);
      pick := Some(link.value.block);
    }

    /** Moves the first used slot of the block to its free list and relinks the block. */
    method FreeUsedSlot(b: nat) returns (slot: Slot)
      requires Core() && working == None && b in blocks && b !in held && UsedHead(b) in links.lists
               && links.lists[UsedHead(b)] != []
      modifies links, this`used, this`transit, this`held, this`working
      ensures Core() && working == None && held == old(held) && transit == old(transit)
      ensures slot in old(used) && used == old(used) - {slot} && UsedLink(slot) == old(links.lists)[UsedHead(b)][0]
    {
      hide ShapeOk;
      hide WellLinked;
      hide Typed;
      hide BlockOk;
      hide Placed;
      hide BooksOk;
      hide ListMoved;
      hide SlotListsKept;
      FirstUsedSlot(n, Shape(), b);
      NoTransit(n, Shape(), b);
      var first := links.First(UsedHead(b));
      slot := first.value.slot;
      ActiveFacts(n, Shape(), slot);
      SlotFacts(n, Shape(), slot);
      WorkingKeeps(n, Shape(), b);
      working := Some(b);
      UnlinkUsed(slot);
      LinkFree(slot);
      assert transit == old(transit);
      Relink(b);
    }

    /** Releases some live payload without destroying it; None only if there is none in a list. */
    method TakeUsed() returns (r: Option<Slot>)
      requires Valid()
      modifies this, links
      ensures Valid() && held == old(held) && transit == old(transit) && destroyed == old(destroyed)
              && blocks == old(blocks)
      ensures created == old(created)
      ensures r.None? ==>
                Shape() == old(Shape()) && payloads == old(payloads) && released == old(released) && forall s <- used ::
                  s.block in held
      ensures r.Some? ==>
                && r.value in old(used) && used == old(used) - {r.value} && payloads == old(payloads) - {r.value}
                && released == old(released) + 1
    {
      hide ShapeOk;
      hide WellLinked;
      hide Typed;
      hide BlockOk;
      hide Placed;
      hide BooksOk;
      hide ListMoved;
      hide SlotListsKept;
      var pick := PickUsed();
      if pick == None { return None; }
      var slot := FreeUsedSlot(pick.value);
      RecordRelease(slot, false);
      r := Some(slot);
    }

    // ---- closing -------------------------------------------------------------

    /** One payload of a block being closed: released, destroyed, and its slot freed. */
    method CloseSlot(slot: Slot)
      requires Valid() && slot in used && slot.block in held && transit == {}
      modifies this, links
      ensures Valid() && held == old(held) && blocks == old(blocks) && transit == {} && used == old(used) - {slot}
      ensures payloads == old(payloads) - {slot} && released == old(released) + 1 && created == old(created)
      ensures destroyed == old(destroyed) + [old(payloads)[slot]]
      ensures links.lists.Keys == old(links.lists.Keys) && BlockListsKept(old(links.lists), links.lists)
    {
      hide ShapeOk;
      hide WellLinked;
      hide Typed;
      hide BlockOk;
      hide Placed;
      hide BooksOk;
      hide SlotListsKept;
      RecordRelease(slot, true);
      FreeHeldSlot(slot);
    }

    /** From the used list of a held block to its free list. */
    method FreeHeldSlot(slot: Slot)
      requires Core() && slot in used && slot.block in held && transit == {}
      modifies links, this`used, this`transit
      ensures Core() && transit == {} && used == old(used) - {slot}
      ensures links.lists.Keys == old(links.lists.Keys) && BlockListsKept(old(links.lists), links.lists)
    {
      hide ShapeOk;
      hide WellLinked;
      hide Typed;
      hide BlockOk;
      hide Placed;
      hide ListMoved;
      hide BlockListsKept;
      ghost var l0 := links.lists;
      UnlinkUsed(slot);
      ghost var l1 := links.lists;
      MovedKeepsBlockLists(l0, l1, UsedHead(slot.block), UsedLink(slot));
      LinkFree(slot);
      UpdateKeepsBlockLists(l1, links.lists, FreeHead(slot.block));
      KeptTrans(l0, l1, links.lists);
    }

    /** Destroys each payload of a block taken out of its list. */
    method CloseSlots(b: nat)
      requires Valid() && b in blocks && b in held && transit == {}
      modifies this, links
      ensures Valid() && held == old(held) && blocks == old(blocks) && transit == {} && created == old(created)
      ensures UsedHead(b) in links.lists && links.lists[UsedHead(b)] == []
      ensures Closing(old(payloads), payloads, old(destroyed), destroyed)
      ensures links.lists.Keys == old(links.lists.Keys) && BlockListsKept(old(links.lists), links.lists)
    {
      hide ShapeOk;
      hide WellLinked;
      hide Typed;
      hide BlockOk;
      hide Placed;
      hide BooksOk;
      hide SlotListsKept;
      hide BlockListsKept;
      hide Closing;
      ghost var was, d0, l0 := payloads, destroyed, links.lists;
      BlockFacts(n, Shape(), b);
      ClosingNone(was, d0);
      KeptTrans(l0, l0, l0);
      var first := links.First(UsedHead(b));
      while first.Some?
        invariant Valid() && held == old(held) && blocks == old(blocks) && transit == {} && created == old(created)
        invariant UsedHead(b) in links.lists
                  && first == if links.lists[UsedHead(b)] == [] then None else Some(links.lists[UsedHead(b)][0])
        invariant Closing(was, payloads, d0, destroyed)
        invariant links.lists.Keys == l0.Keys && BlockListsKept(l0, links.lists)
        decreases |used|
      {
        FirstUsedSlot(n, Shape(), b);
        ghost var p, d, u, l := payloads, destroyed, used, links.lists;
        CloseSlot(first.value.slot);
        ClosingOne(was, p, payloads, d0, d, destroyed, first.value.slot);
        KeptTrans(l0, l, links.lists);
        Smaller(u, first.value.slot);
        first := links.First(UsedHead(b));
      }
    }

    /** block__::close: no payload of the block is left, no other payload is touched, and every
        slot of it is free. */
    method CloseBlock(b: nat)
      requires Valid() && b in blocks && b in held && transit == {}
      modifies this, links
      ensures Valid() && held == old(held) && blocks == old(blocks) && transit == {} && forall t <- used :: t.block != b
      ensures Closing(old(payloads), payloads, old(destroyed), destroyed) && created == old(created)
      ensures links.lists.Keys == old(links.lists.Keys) && BlockListsKept(old(links.lists), links.lists)
    {
      hide ShapeOk;
      hide WellLinked;
      hide Typed;
      hide BlockOk;
      hide Placed;
      hide BooksOk;
      hide SlotListsKept;
      hide BlockListsKept;
      hide Closing;
      ghost var l0 := links.lists;
      CloseSlots(b);
      ghost var s := Shape();
      BlockFacts(n, s, b);
      NothingUsedIn(n, s, b);
      BlockIsPlaced(links.next.Keys, links.lists.Keys, n, blocks, nextBlock, b);
      ResetFreeList(b);
      ResetKeeps(n, s, Shape(), b);
      KeptTrans(l0, s.lists, links.lists);
    }

    /** One of the three loops of `close`. */
    method CloseList(h: Addr)
      requires Valid() && IsBlockList(h) && held == {} && transit == {}
      modifies this, links
      ensures Valid() && held == {} && transit == {} && created == old(created)
      ensures Closing(old(payloads), payloads, old(destroyed), destroyed)
      ensures links.lists.Keys == old(links.lists.Keys) && h in links.lists && links.lists[h] == []
      ensures forall g <- old(links.lists) | IsBlockList(g) && g != h :: links.lists[g] == old(links.lists)[g]
    {
      hide ShapeOk;
      hide WellLinked;
      hide Typed;
      hide BlockOk;
      hide Placed;
      hide BooksOk;
      hide SlotListsKept;
      BlockListsThere(n, Shape());
      var first := links.First(h);
      while first.Some?
        invariant Valid() && held == {} && transit == {} && created == old(created)
        invariant links.lists.Keys == old(links.lists.Keys)
        invariant h in links.lists && first == if links.lists[h] == [] then None else Some(links.lists[h][0])
        invariant Closing(old(payloads), payloads, old(destroyed), destroyed)
        invariant forall g <- old(links.lists) | IsBlockList(g) && g != h :: links.lists[g] == old(links.lists)[g]
        decreases |blocks|
      {
        FirstBlock(n, Shape(), h);
        OneList(links.next, links.prev, links.lists, h, first.value);
        var b := first.value.block;
        ghost var p, d, bs := payloads, destroyed, blocks;
        CloseAndDelete(h, b);
        ClosingTrans(old(payloads), p, payloads, old(destroyed), d, destroyed);
        SmallerBlocks(bs, b);
        first := links.First(h);
      }
    }

    method CloseAndDelete(h: Addr, b: nat)
      requires Valid() && held == {} && transit == {} && b in blocks && IsBlockList(h)
               && InList(links.lists, h, BlockLink(b))
      modifies this, links
      ensures Valid() && held == {} && transit == {} && created == old(created) && blocks == old(blocks) - {b}
      ensures Closing(old(payloads), payloads, old(destroyed), destroyed)
      ensures links.lists.Keys == old(links.lists.Keys)
      ensures forall g <- old(links.lists) | IsBlockList(g) && g != h :: links.lists[g] == old(links.lists)[g]
    {
      hide ShapeOk, WellLinked, Typed, BlockOk, Placed, BooksOk, SlotListsKept, Closing;
      ghost var l0 := links.lists;
      forall g <- l0 | g != h ensures BlockLink(b) !in l0[g] {
        OneList(links.next, links.prev, l0, h, BlockLink(b));
        assert InList(l0, g, BlockLink(b)) ==> g == h;
      }
      UnlinkBlock(b);
      CloseBlock(b);
      DeleteKeeps(n, Shape(), b);
      StillPlacedWithout(links.next.Keys, links.lists.Keys, n, blocks, nextBlock, b);
      blocks, held := blocks - {b}, held - {b};
    }

    /** close: every live payload is destroyed once, nothing else is, and no block is left. */
    method Close()
      requires Valid() && held == {} && transit == {}
      modifies this, links
      ensures Valid() && blocks == {} && used == {} && created == released
      ensures old(destroyed) <= destroyed && |destroyed| == |old(destroyed)| + |old(used)|
      ensures forall slot <- old(payloads) :: old(payloads)[slot] in destroyed
    {
      hide ShapeOk;
      hide WellLinked;
      hide Typed;
      hide BlockOk;
      hide Placed;
      hide BooksOk;
      hide SlotListsKept;
      BlockListsThere(n, Shape());
      ghost var p, d := payloads, destroyed;
      CloseList(FirstUsed);
      ghost var p1, d1 := payloads, destroyed;
      CloseList(FirstPartial);
      ClosingTrans(p, p1, payloads, d, d1, destroyed);
      ghost var p2, d2 := payloads, destroyed;
      CloseList(FirstFree);
      ClosingTrans(p, p2, payloads, d, d2, destroyed);
      BlocksAreListed(n, Shape());
      BooksCount(payloads, nextId, created, released, destroyed);
    }
  }

  /** Some payloads were destroyed, each once, and nothing else was. */
  ghost predicate Closing(p: map<Slot, nat>, p': map<Slot, nat>, d: seq<nat>, d': seq<nat>) {
    && p'.Keys <= p.Keys && (forall s <- p' :: p'[s] == p[s])
    && d <= d' && |d'| + |p'.Keys| == |d| + |p.Keys|
    && (forall s <- p | s !in p' :: p[s] in d')
  }

  lemma MovedKeepsBlockLists(lists: Lists, lists': Lists, h: Addr, a: Addr)
    requires ListMoved(lists, lists', h, a) && !IsBlockList(h)
    ensures BlockListsKept(lists, lists') && lists'.Keys == lists.Keys
  {
  }

  lemma UpdateKeepsBlockLists(lists: Lists, lists': Lists, h: Addr)
    requires h in lists && h in lists' && lists' == lists[h := lists'[h]] && !IsBlockList(h)
    ensures BlockListsKept(lists, lists') && lists'.Keys == lists.Keys
  {
  }

  lemma ClosingNone(p: map<Slot, nat>, d: seq<nat>)
    ensures Closing(p, p, d, d)
  {
  }

  lemma KeptTrans(a: Lists, b: Lists, c: Lists)
    ensures BlockListsKept(a, a) && (BlockListsKept(a, b) && BlockListsKept(b, c) ==> BlockListsKept(a, c))
  {
  }

  lemma ClosingTrans(p: map<Slot, nat>, m: map<Slot, nat>, p': map<Slot, nat>, d: seq<nat>, e: seq<nat>, d': seq<nat>)
    requires Closing(p, m, d, e) && Closing(m, p', e, d')
    ensures Closing(p, p', d, d')
  {
    forall s <- p | s !in p' ensures p[s] in d' {
      if s in m { assert m[s] in d'; } else { assert p[s] in e; }
    }
  }

  lemma ClosingOne(p: map<Slot, nat>, m: map<Slot, nat>, p': map<Slot, nat>, d: seq<nat>, e: seq<nat>, d': seq<nat>,
      slot: Slot)
    requires Closing(p, m, d, e) && slot in m && p' == m - {slot} && d' == e + [m[slot]]
    ensures Closing(p, p', d, d')
  {
    assert p'.Keys + {slot} == m.Keys;
    assert m[slot] == d'[|e|];
    forall s <- p | s !in p' ensures p[s] in d' {
      if s != slot { assert p[s] in e; }
    }
  }

  lemma Smaller(s: set<Slot>, x: Slot)
    requires x in s
    ensures |s - {x}| < |s|
  {
    assert s == (s - {x}) + {x};
  }

  lemma SmallerBlocks(s: set<nat>, x: nat)
    requires x in s
    ensures |s - {x}| < |s|
  {
    assert s == (s - {x}) + {x};
  }

  /** The three block lists are as they were. */
  ghost predicate BlockListsKept(lists: Lists, lists': Lists) {
    forall h <- lists | IsBlockList(h) :: h in lists' && lists'[h] == lists[h]
  }

  lemma NothingUsedIn(n: nat, s: Shape, b: nat)
    requires ShapeOk(n, s) && b in s.blocks && UsedHead(b) in s.lists && s.lists[UsedHead(b)] == []
    ensures forall t <- s.used :: t.block != b
  {
    assert BlockOk(n, s, b);
    forall t <- s.used ensures t.block != b {
      assert t in s.used + s.transit;
      assert t.block == b ==> SlotOk(s, Slot(b, t.index));
    }
  }

  lemma BlockIsPlaced(keys: set<Addr>, heads: set<Addr>, n: nat, blocks: set<nat>, nextBlock: nat, b: nat)
    requires Placed(keys, heads, n, blocks, nextBlock) && b in blocks
    ensures BlockPlaced(keys, heads, n, b) && forall h <- heads :: IsHead(h)
  {
  }

  /** Rebuilding the free list of a block without live payloads only reorders it. */
  lemma ResetKeeps(n: nat, s: Shape, s': Shape, b: nat)
    requires ShapeOk(n, s) && b in s.blocks && b in s.held && s.transit == {} && (forall t <- s.used :: t.block != b)
    requires FreeHead(b) in s.lists && UsedHead(b) in s.lists
    requires s' == s.(lists := s.lists[FreeHead(b) := FreeRun(b, 0, n)][UsedHead(b) := []])
    ensures ShapeOk(n, s') && BlockListsKept(s.lists, s'.lists) && s'.lists.Keys == s.lists.Keys
  {
    forall h, a | InList(s'.lists, h, a) ensures Fits(h, a) {
      if h != FreeHead(b) && h != UsedHead(b) { assert InList(s.lists, h, a); }
    }
    assert BlockOk(n, s, b);
    forall i: nat | i < n ensures SlotOk(s', Slot(b, i)) { assert FreeRun(b, 0, n)[i] == FreeLink(Slot(b, i)); }
    forall h ensures !InList(s'.lists, h, BlockLink(b)) {
      assert h != FreeHead(b) && h != UsedHead(b) ==>
               (InList(s'.lists, h, BlockLink(b)) <==> InList(s.lists, h, BlockLink(b)));
    }
    OneBlockKeeps(n, s, s', b);
  }

  /** A held block without payloads may go. */
  lemma DeleteKeeps(n: nat, s: Shape, b: nat)
    requires ShapeOk(n, s) && s.working == None && b in s.blocks && b in s.held && s.transit == {}
             && (forall t <- s.used :: t.block != b)
    ensures ShapeOk(n, s.(blocks := s.blocks - {b}, held := s.held - {b}))
  {
    var s' := s.(blocks := s.blocks - {b}, held := s.held - {b});
    assert BlockOk(n, s, b);
    forall h, a | InList(s'.lists, h, a) && IsBlockList(h) && a.BlockLink? ensures a.block in s'.blocks {
      assert a == BlockLink(b) ==> InSome(s.lists, BlockLink(b));
    }
    forall c <- s'.blocks ensures BlockOk(n, s', c) {
      assert BlockOk(n, s, c);
      forall i: nat | i < n ensures SlotOk(s', Slot(c, i)) { assert SlotOk(s, Slot(c, i)); }
    }
  }

  lemma StillPlacedWithout(keys: set<Addr>, heads: set<Addr>, n: nat, blocks: set<nat>, nextBlock: nat, b: nat)
    requires Placed(keys, heads, n, blocks, nextBlock)
    ensures Placed(keys, heads, n, blocks - {b}, nextBlock)
  {
  }

  /** While there is a block, or a live payload, and none is held, some block list is not empty. */
  lemma BlocksAreListed(n: nat, s: Shape)
    requires ShapeOk(n, s) && s.held == {} && s.working == None
    requires FirstFree in s.lists && FirstUsed in s.lists && FirstPartial in s.lists
    ensures s.blocks != {} || s.used != {} ==>
              s.lists[FirstFree] != [] || s.lists[FirstUsed] != [] || s.lists[FirstPartial] != []
  {
    if t :| t in s.used { assert t in s.used + s.transit; }
    if b :| b in s.blocks {
      assert BlockOk(n, s, b);
      assert InList(s.lists, Home(s.lists, b), BlockLink(b));
    }
  }

  lemma BooksCount(payloads: map<Slot, nat>, nextId: nat, created: nat, released: nat, destroyed: seq<nat>)
    requires BooksOk(payloads, nextId, created, released, destroyed)
    ensures created == released + |payloads.Keys|
  {
  }

  /** A slot in transit has no payload. */
  lemma TransitNotUsed(n: nat, s: Shape, slot: Slot)
    requires ShapeOk(n, s) && slot in s.transit
    ensures slot !in s.used && slot.block in s.blocks
  {
    assert slot in s.used + s.transit;
    assert BlockOk(n, s, slot.block) && SlotOk(s, Slot(slot.block, slot.index));
  }

  /** A block may be worked on at any time. */
  lemma WorkingKeeps(n: nat, s: Shape, b: nat)
    requires ShapeOk(n, s.(working := None)) && b in s.blocks
    ensures ShapeOk(n, s.(working := Some(b)))
  {
    forall c <- s.blocks ensures BlockOk(n, s.(working := Some(b)), c) {
      assert BlockOk(n, s.(working := None), c);
      forall i: nat | i < n
        ensures SlotOk(s.(working := Some(b)), Slot(c, i)) { assert SlotOk(s.(working := None), Slot(c, i)); }
    }
  }

  lemma BlockLinkThere(keys: set<Addr>, heads: set<Addr>, n: nat, blocks: set<nat>, nextBlock: nat, b: nat)
    requires Placed(keys, heads, n, blocks, nextBlock) && b in blocks
    ensures BlockLink(b) in keys && BlockLink(b) !in heads
  {
    assert BlockPlaced(keys, heads, n, b);
  }

  /** With no block in the used or the partial list, every live payload is in a held block. */
  lemma NothingListed(n: nat, s: Shape)
    requires ShapeOk(n, s) && s.working == None
    requires FirstUsed in s.lists && FirstPartial in s.lists && s.lists[FirstUsed] == [] && s.lists[FirstPartial] == []
    ensures forall t <- s.used :: t.block in s.held
  {
    forall t <- s.used ensures t.block in s.held {
      assert t in s.used + s.transit;
      assert BlockOk(n, s, t.block) && SlotOk(s, Slot(t.block, t.index));
      assert InList(s.lists, UsedHead(t.block), UsedLink(t));
    }
  }

  lemma StillPlaced(keys: set<Addr>, heads: set<Addr>, keys': set<Addr>, heads': set<Addr>, n: nat, blocks: set<nat>,
      b: nat)
    requires Placed(keys, heads, n, blocks, b) && BlockPlaced(keys', heads', n, b)
    requires keys' == keys + {FreeHead(b), UsedHead(b), BlockLink(b)} + SlotAddresses(b, n)
             && heads' == heads + {FreeHead(b), UsedHead(b)}
    ensures Placed(keys', heads', n, blocks + {b}, b + 1)
  {
    forall c <- blocks ensures BlockPlaced(keys', heads', n, c) { assert BlockPlaced(keys, heads, n, c); }
    forall a <- keys' ensures IsBlockList(a) || BlockNumber(a) < b + 1 { InSlotAddresses(b, n, a); }
  }

  ghost function SlotAddresses(b: nat, n: nat): set<Addr> {
    if n == 0 then {} else SlotAddresses(b, n - 1) + {FreeLink(Slot(b, n - 1)), UsedLink(Slot(b, n - 1))}
  }

  lemma SlotsNew(keys: set<Addr>, b: nat, i: nat)
    requires forall a <- keys :: IsBlockList(a) || BlockNumber(a) != b
    ensures var all := keys + {FreeHead(b), UsedHead(b), BlockLink(b)} + SlotAddresses(b, i);
            && FreeLink(Slot(b, i)) !in all && UsedLink(Slot(b, i)) !in all
            && all + {FreeLink(Slot(b, i)), UsedLink(Slot(b, i))} ==
                 keys + {FreeHead(b), UsedHead(b), BlockLink(b)} + SlotAddresses(b, i + 1)
  {
    InSlotAddresses(b, i, FreeLink(Slot(b, i)));
    InSlotAddresses(b, i, UsedLink(Slot(b, i)));
    assert SlotAddresses(b, i + 1) == SlotAddresses(b, i) + {FreeLink(Slot(b, i)), UsedLink(Slot(b, i))};
  }

  lemma {:induction false} InSlotAddresses(b: nat, n: nat, a: Addr)
    ensures a in SlotAddresses(b, n) <==> (a.FreeLink? || a.UsedLink?) && a.slot.block == b && a.slot.index < n
  {
    if n > 0 { InSlotAddresses(b, n - 1, a); }
  }

  lemma AddressesPlaced(keys: set<Addr>, heads: set<Addr>, n: nat, b: nat, slots: set<Addr>)
    requires slots == SlotAddresses(b, n) && slots <= keys && BlockLink(b) in keys && FreeHead(b) in heads
             && UsedHead(b) in heads
    ensures BlockPlaced(keys, heads, n, b)
  {
    forall i: nat | i < n ensures FreeLink(Slot(b, i)) in keys && UsedLink(Slot(b, i)) in keys {
      InSlotAddresses(b, n, FreeLink(Slot(b, i)));
      InSlotAddresses(b, n, UsedLink(Slot(b, i)));
    }
  }

  /** Nothing of the next block exists yet. */
  lemma FreshBlock(n: nat, s: Shape, next: map<Addr, Addr>, prev: map<Addr, Addr>, blocks: set<nat>, nextBlock: nat)
    requires WellLinked(next, prev, s.lists) && Placed(next.Keys, s.lists.Keys, n, blocks, nextBlock) && ShapeOk(n, s)
             && s.blocks == blocks
    ensures nextBlock !in blocks && !InSome(s.lists, BlockLink(nextBlock))
    ensures forall a <- next :: IsBlockList(a) || BlockNumber(a) != nextBlock
    ensures (forall t <- s.transit :: t.block != nextBlock) && nextBlock !in s.held && Typed(s.lists)
  {
    forall h, a | InList(s.lists, h, a) ensures a in next {}
    forall t <- s.transit ensures t.block in blocks { assert t in s.used + s.transit; }
  }

  lemma TypedGrows(lists: Lists, b: nat)
    requires Typed(lists)
    ensures Typed(lists[FreeHead(b) := []][UsedHead(b) := []])
  {
    var lists' := lists[FreeHead(b) := []][UsedHead(b) := []];
    forall h, a | InList(lists', h, a) ensures Fits(h, a) { assert InList(lists, h, a); }
  }

  /** While the free list is being rebuilt, the slots below `i` are in no list. */
  lemma NotLinkedYet(lists: Lists, lists': Lists, b: nat, i: nat, n: nat)
    requires Typed(lists) && 0 < i <= n && lists' == lists[FreeHead(b) := FreeRun(b, i, n)][UsedHead(b) := []]
    ensures !InSome(lists', FreeLink(Slot(b, i - 1)))
  {
    var a := FreeLink(Slot(b, i - 1));
    forall h ensures !InList(lists', h, a) {
      if h != FreeHead(b) && h != UsedHead(b) { assert InList(lists, h, a) ==> Fits(h, a); }
    }
  }
}
