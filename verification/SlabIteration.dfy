/**
 Walking the live payloads of a slab allocator: the iterator over two block lists, and the
 count of active slots.
 */
module SlabIteration {
  import opened Basics
  import opened IntrusiveLink
  import opened SlabAllocator

  // --------------------------------------------------------------------------
  // What there is to visit
  // --------------------------------------------------------------------------

  /** The blocks of the used list and then those of the partial list. */
  ghost function Blocks(lists: Lists): seq<Addr>
    requires FirstUsed in lists && FirstPartial in lists
  {
    lists[FirstUsed] + lists[FirstPartial]
  }

  /** Every block listed has its own list of used slots. */
  ghost predicate Walkable(lists: Lists, blocks: seq<Addr>) {
    forall k | 0 <= k < |blocks| ::
      && blocks[k].BlockLink? && UsedHead(blocks[k].block) in lists
      && forall j | 0 <= j < |lists[UsedHead(blocks[k].block)]| :: lists[UsedHead(blocks[k].block)][j].UsedLink?
  }

  ghost function SlotsOf(list: seq<Addr>): seq<Slot>
    requires forall j | 0 <= j < |list| :: list[j].UsedLink?
  {
    seq(|list|, j requires 0 <= j < |list| => list[j].slot)
  }

  ghost function Walk(lists: Lists, blocks: seq<Addr>): seq<Slot>
    requires Walkable(lists, blocks)
  {
    if blocks == [] then []
    else
      var k := |blocks| - 1;
      Walk(lists, blocks[..k]) + SlotsOf(lists[UsedHead(blocks[k].block)])
  }

  /** The walk over the first `at` blocks. */
  ghost function WalkTo(lists: Lists, at: nat): seq<Slot>
    requires FirstUsed in lists && FirstPartial in lists && Walkable(lists, Blocks(lists)) && at <= |Blocks(lists)|
  {
    Walk(lists, Blocks(lists)[..at])
  }

  lemma WalkStep(lists: Lists, at: nat)
    requires FirstUsed in lists && FirstPartial in lists && Walkable(lists, Blocks(lists)) && at < |Blocks(lists)|
    ensures Blocks(lists)[at].BlockLink? && UsedHead(Blocks(lists)[at].block) in lists
    ensures forall j | 0 <= j < |lists[UsedHead(Blocks(lists)[at].block)]| ::
              lists[UsedHead(Blocks(lists)[at].block)][j].UsedLink?
    ensures WalkTo(lists, at + 1) == WalkTo(lists, at) + SlotsOf(lists[UsedHead(Blocks(lists)[at].block)])
  {
    assert Blocks(lists)[..at + 1][..at] == Blocks(lists)[..at];
  }

  lemma WalkToEnd(lists: Lists)
    requires FirstUsed in lists && FirstPartial in lists && Walkable(lists, Blocks(lists))
    ensures WalkTo(lists, |Blocks(lists)|) == Walk(lists, Blocks(lists))
  {
    assert Blocks(lists)[..|Blocks(lists)|] == Blocks(lists);
  }

  lemma BlocksWalkable(n: nat, s: Shape)
    requires ShapeOk(n, s)
    ensures FirstUsed in s.lists && FirstPartial in s.lists && Walkable(s.lists, Blocks(s.lists))
  {
    var blocks := Blocks(s.lists);
    forall k | 0 <= k < |blocks|
      ensures blocks[k].BlockLink? && blocks[k].block in s.blocks
    {
      var h := if k < |s.lists[FirstUsed]| then FirstUsed else FirstPartial;
      assert InList(s.lists, h, blocks[k]) && Fits(h, blocks[k]);
    }
    forall k | 0 <= k < |blocks| ensures BlockOk(n, s, blocks[k].block) {}
  }

  // --------------------------------------------------------------------------
  // The iterator
  // --------------------------------------------------------------------------

  /** An iterator stands on a used slot of a block of one list, with the other list still to come,
      or at the end, where `link` is None. */
  class Cursor {
    const links: LinkSpace<Addr>
    var tail: Addr
    var link: Option<Addr>
    var nextTail: Option<Addr>
    var slot: Slot
    // the block it is on, counted over both lists, and the slot within the block
    ghost var at: nat
    ghost var k: nat

    /** `link` and the tails are where they must be for block number `at`. */
    ghost predicate OnBlock()
      reads this, links
    {
      && links.Valid() && FirstUsed in links.lists && FirstPartial in links.lists
      && Walkable(links.lists, Blocks(links.lists))
      && at <= |Blocks(links.lists)| && link.Some?
      && if nextTail.Some? then
           && tail == FirstUsed && nextTail == Some(FirstPartial) && at <= |links.lists[FirstUsed]|
           && link.value == if at < |links.lists[FirstUsed]| then links.lists[FirstUsed][at] else FirstUsed
         else
           && tail == FirstPartial && |links.lists[FirstUsed]| <= at
           && link.value == if at < |Blocks(links.lists)| then Blocks(links.lists)[at] else FirstPartial
    }

    ghost predicate Valid()
      reads this, links
    {
      if link.None? then
        && links.Valid() && FirstUsed in links.lists && FirstPartial in links.lists
        && Walkable(links.lists, Blocks(links.lists))
        && at == |Blocks(links.lists)|
      else
        && OnBlock() && at < |Blocks(links.lists)| && link != Some(tail)
        && var list := links.lists[UsedHead(Blocks(links.lists)[at].block)]; k < |list| && slot == list[k].slot
    }

    /** What has been passed, the slot the iterator stands on not included. */
    ghost function Passed(): seq<Slot>
      requires Valid()
      reads this, links
    {
      var blocks := Blocks(links.lists);
      if link.None? then Walk(links.lists, blocks)
      else WalkTo(links.lists, at) + SlotsOf(links.lists[UsedHead(blocks[at].block)])[..k]
    }

    /** begin() */
    constructor (links: LinkSpace<Addr>)
      requires links.Valid() && FirstUsed in links.lists && FirstPartial in links.lists
               && Walkable(links.lists, Blocks(links.lists))
      ensures Valid() && this.links == links && Passed() == []
    {
      this.links := links;
      FirstOnCircle(links.next, links.prev, FirstUsed, links.lists[FirstUsed]);
      tail, link, nextTail := FirstUsed, Some(links.next[FirstUsed]), Some(FirstPartial);
      slot, at, k := Slot(0, 0), 0, 0;
      new;
      SelectUsedSlot();
    }

    /** From block `at` on, finds the first block with a used slot. */
    method SelectUsedSlot()
      requires OnBlock()
      modifies this
      ensures Valid()
      ensures Passed() == WalkTo(links.lists, old(at))
    {
      hide WellLinked;
      hide Walkable;
      ghost var lists, blocks := links.lists, Blocks(links.lists);
      while true
        invariant OnBlock() && links.lists == lists && old(at) <= at
        invariant WalkTo(lists, at) == WalkTo(lists, old(at))
        decreases |blocks| - at, nextTail.Some?
      {
        if link == Some(tail) {
          if nextTail == None {
            NotAHead(lists, at);
            assert at == |blocks|;
            link := None;
            WalkToEnd(lists);
            return;
          }
          OtherList();
          continue;
        }
        NotAHead(lists, at);
        WalkStep(lists, at);
        var b := link.value.block;
        var first := links.First(UsedHead(b));
        if first.Some? {
          slot := first.value.slot;
          k := 0;
          assert SlotsOf(lists[UsedHead(b)])[..0] == [];
          return;
        }
        assert SlotsOf(lists[UsedHead(b)]) == [];
        NextBlock();
      }
    }

    /** At the end of the used list, on to the partial list. */
    method OtherList()
      requires OnBlock() && link == Some(tail) && nextTail.Some?
      modifies this`tail, this`link, this`nextTail
      ensures OnBlock() && nextTail == None
    {
      NotAHead(links.lists, at);
      tail := nextTail.value;
      links.AfterHead(tail);
      link := Some(links.next[tail]);
      nextTail := None;
    }

    method NextBlock()
      requires OnBlock() && link != Some(tail)
      modifies this`link, this`at
      ensures OnBlock() && at == old(at) + 1
    {
      if nextTail.Some? {
        links.NextOf(FirstUsed, at);
      } else {
        links.NextOf(FirstPartial, at - |links.lists[FirstUsed]|);
      }
      link := Some(links.next[link.value]);
      at := at + 1;
    }

    /** operator++: the next used slot of the block, or the first of a later block. */
    method Next()
      requires Valid() && link.Some?
      modifies this
      ensures Valid() && Passed() == old(Passed()) + [old(slot)]
    {
      hide WellLinked;
      ghost var lists, list := links.lists, links.lists[UsedHead(Blocks(links.lists)[at].block)];
      NotAHead(lists, at);
      WalkStep(lists, at);
      var b := link.value.block;
      links.NextOf(UsedHead(b), k);
      ghost var passed, slots := Passed(), SlotsOf(list);
      assert slots[..k + 1] == slots[..k] + [slot];
      var used := links.next[UsedLink(slot)];
      if used != UsedHead(b) {
        slot := used.slot;
        k := k + 1;
      } else {
        assert slots[..k + 1] == slots;
        NextBlock();
        SelectUsedSlot();
      }
    }
  }

  lemma NotAHead(lists: Lists, at: nat)
    requires FirstUsed in lists && FirstPartial in lists && Walkable(lists, Blocks(lists))
    ensures at < |Blocks(lists)| ==> Blocks(lists)[at].BlockLink?
    ensures at < |lists[FirstUsed]| ==> lists[FirstUsed][at] == Blocks(lists)[at]
  {
  }

  // --------------------------------------------------------------------------
  // Each live payload once
  // --------------------------------------------------------------------------

  /** The blocks listed are distinct, as no link is in two lists or twice in one. */
  lemma BlocksDistinct(next: map<Addr, Addr>, prev: map<Addr, Addr>, lists: Lists)
    requires WellLinked(next, prev, lists) && FirstUsed in lists && FirstPartial in lists
    ensures Distinct(Blocks(lists))
  {
    MembersDistinct(next, prev, lists, FirstUsed);
    MembersDistinct(next, prev, lists, FirstPartial);
    var blocks, m := Blocks(lists), |lists[FirstUsed]|;
    forall i, j | 0 <= i < j < |blocks| ensures blocks[i] != blocks[j] {
      if i < m <= j {
        assert InList(lists, FirstUsed, blocks[i]) && InList(lists, FirstPartial, blocks[j]);
      }
    }
  }

  /** The walk meets exactly the slots in the used lists of the blocks. */
  lemma {:induction false} InWalk(lists: Lists, blocks: seq<Addr>, t: Slot)
    requires Walkable(lists, blocks) && Typed(lists)
    ensures t in Walk(lists, blocks) <==> BlockLink(t.block) in blocks && InList(lists, UsedHead(t.block), UsedLink(t))
  {
    if blocks != [] {
      var k := |blocks| - 1;
      var list := lists[UsedHead(blocks[k].block)];
      InWalk(lists, blocks[..k], t);
      InSlots(list, t);
      assert Walk(lists, blocks) == Walk(lists, blocks[..k]) + SlotsOf(list);
      if UsedLink(t) in list {
        assert InList(lists, UsedHead(blocks[k].block), UsedLink(t));
        assert Fits(UsedHead(blocks[k].block), UsedLink(t));
      }
      assert blocks == blocks[..k] + [blocks[k]];
    }
  }

  lemma InSlots(list: seq<Addr>, t: Slot)
    requires forall j | 0 <= j < |list| :: list[j].UsedLink?
    ensures t in SlotsOf(list) <==> UsedLink(t) in list
  {
    if UsedLink(t) in list {
      var j :| 0 <= j < |list| && list[j] == UsedLink(t);
      assert SlotsOf(list)[j] == t;
    }
    if t in SlotsOf(list) {
      var j :| 0 <= j < |list| && SlotsOf(list)[j] == t;
      assert list[j] == UsedLink(t);
    }
  }

  lemma {:induction false} WalkDistinct(next: map<Addr, Addr>, prev: map<Addr, Addr>, lists: Lists, blocks: seq<Addr>)
    requires WellLinked(next, prev, lists) && Typed(lists) && Walkable(lists, blocks) && Distinct(blocks)
    ensures Distinct(Walk(lists, blocks))
  {
    if blocks != [] {
      var k := |blocks| - 1;
      var before, list := Walk(lists, blocks[..k]), lists[UsedHead(blocks[k].block)];
      WalkDistinct(next, prev, lists, blocks[..k]);
      MembersDistinct(next, prev, lists, UsedHead(blocks[k].block));
      var slots := SlotsOf(list);
      forall i, j | 0 <= i < j < |slots| ensures slots[i] != slots[j] {
        assert list[i] != list[j];
      }
      forall i, j | 0 <= i < |before| && 0 <= j < |slots| ensures before[i] != slots[j] {
        OtherBlock(lists, blocks, before[i], j);
      }
    }
  }

  /** What was met before the last block is not in it. */
  lemma OtherBlock(lists: Lists, blocks: seq<Addr>, t: Slot, j: nat)
    requires blocks != [] && Walkable(lists, blocks) && Typed(lists) && Distinct(blocks)
    requires t in Walk(lists, blocks[..|blocks| - 1]) && j < |lists[UsedHead(blocks[|blocks| - 1].block)]|
    ensures t != lists[UsedHead(blocks[|blocks| - 1].block)][j].slot
  {
    var k := |blocks| - 1;
    var a := lists[UsedHead(blocks[k].block)][j];
    InWalk(lists, blocks[..k], t);
    assert InList(lists, UsedHead(blocks[k].block), a) && Fits(UsedHead(blocks[k].block), a);
    var i :| 0 <= i < k && blocks[i] == BlockLink(t.block);
    assert blocks[i] != blocks[k];
  }

  /** With no destroy in progress the walk meets each live payload, and nothing else, once. */
  lemma WalkIsUsed(n: nat, s: Shape, next: map<Addr, Addr>, prev: map<Addr, Addr>)
    requires ShapeOk(n, s) && WellLinked(next, prev, s.lists) && s.held == {} && s.working == None
    ensures FirstUsed in s.lists && FirstPartial in s.lists && Walkable(s.lists, Blocks(s.lists))
    ensures var walk := Walk(s.lists, Blocks(s.lists));
            Distinct(walk) && |walk| == |s.used| && forall t :: t in walk <==> t in s.used
  {
    BlocksWalkable(n, s);
    BlocksDistinct(next, prev, s.lists);
    WalkDistinct(next, prev, s.lists, Blocks(s.lists));
    var walk := Walk(s.lists, Blocks(s.lists));
    forall t ensures t in walk <==> t in s.used {
      InWalk(s.lists, Blocks(s.lists), t);
      UsedIsListed(n, s, t);
    }
    LengthOfSet(walk, s.used);
  }

  lemma UsedIsListed(n: nat, s: Shape, t: Slot)
    requires ShapeOk(n, s) && s.held == {} && s.working == None && FirstUsed in s.lists && FirstPartial in s.lists
    ensures t in s.used <==> BlockLink(t.block) in Blocks(s.lists) && InList(s.lists, UsedHead(t.block), UsedLink(t))
  {
    if t in s.used {
      ActiveFacts(n, s, t);
      SlotFacts(n, s, t);
      BlockFacts(n, s, t.block);
      assert InList(s.lists, Home(s.lists, t.block), BlockLink(t.block));
    }
    if BlockLink(t.block) in Blocks(s.lists) && InList(s.lists, UsedHead(t.block), UsedLink(t)) {
      var h := if BlockLink(t.block) in s.lists[FirstUsed] then FirstUsed else FirstPartial;
      assert InList(s.lists, h, BlockLink(t.block));
      assert BlockOk(n, s, t.block);
      SlotFacts(n, s, t);
    }
  }

  lemma {:induction false} LengthOfSet<T>(s: seq<T>, all: set<T>)
    requires Distinct(s) && forall x :: x in s <==> x in all
    ensures |s| == |all|
  {
    if s == [] {
      assert all == {};
    } else {
      var n := |s| - 1;
      assert s == s[..n] + [s[n]];
      LengthOfSet(s[..n], all - {s[n]});
      assert all == (all - {s[n]}) + {s[n]};
    }
  }

  /** A full traversal, `for (it = begin(); it != end(); ++it)`: it ends, and has visited each
      live payload once. */
  method Visit(a: Allocator) returns (visited: seq<Slot>)
    requires a.Valid() && a.held == {}
    ensures Distinct(visited) && |visited| == |a.used| == a.created - a.released
    ensures forall t :: t in visited <==> t in a.used
  {
    hide ShapeOk;
    hide WellLinked;
    hide Placed;
    hide BooksOk;
    hide Walkable;
    WalkIsUsed(a.n, a.Shape(), a.links.next, a.links.prev);
    BooksCount(a.payloads, a.nextId, a.created, a.released, a.destroyed);
    ghost var walk := Walk(a.links.lists, Blocks(a.links.lists));
    var it := new Cursor(a.links);
    visited := [];
    while it.link.Some?
      invariant it.Valid() && fresh(it) && it.links == a.links && visited == it.Passed()
      invariant a.Valid() && walk == Walk(a.links.lists, Blocks(a.links.lists))
      decreases |walk| - |visited|
    {
      PassedWithin(it);
      visited := visited + [it.slot];
      it.Next();
      PassedWithin(it);
    }
  }

  /** What an iterator has passed is part of the walk, and not all of it unless it is at the end. */
  lemma PassedWithin(it: Cursor)
    requires it.Valid()
    ensures |it.Passed()| <= |Walk(it.links.lists, Blocks(it.links.lists))|
    ensures it.link.Some? ==> |it.Passed()| < |Walk(it.links.lists, Blocks(it.links.lists))|
  {
    if it.link.Some? { PassedShorter(it.links.lists, Blocks(it.links.lists), it.at, it.k); }
  }

  lemma {:induction false} PassedShorter(lists: Lists, blocks: seq<Addr>, at: nat, k: nat)
    requires Walkable(lists, blocks) && at < |blocks| && k < |lists[UsedHead(blocks[at].block)]|
    ensures Walkable(lists, blocks[..at]) && |Walk(lists, blocks[..at])| + k < |Walk(lists, blocks)|
    decreases |blocks|
  {
    var m := |blocks| - 1;
    if at < m {
      assert blocks[..m][..at] == blocks[..at];
      PassedShorter(lists, blocks[..m], at, k);
    }
  }

  // --------------------------------------------------------------------------
  // Counting
  // --------------------------------------------------------------------------

  /** Every slot of a block in the used list is used. */
  lemma FullBlock(n: nat, s: Shape, next: map<Addr, Addr>, prev: map<Addr, Addr>, k: nat)
    requires ShapeOk(n, s) && WellLinked(next, prev, s.lists) && s.held == {} && s.working == None
             && FirstUsed in s.lists && k < |s.lists[FirstUsed]|
    ensures s.lists[FirstUsed][k].BlockLink? && UsedHead(s.lists[FirstUsed][k].block) in s.lists
    ensures |s.lists[UsedHead(s.lists[FirstUsed][k].block)]| == n
  {
    var a := s.lists[FirstUsed][k];
    assert InList(s.lists, FirstUsed, a) && Fits(FirstUsed, a);
    var b := a.block;
    assert BlockOk(n, s, b);
    assert InList(s.lists, Home(s.lists, b), BlockLink(b));
    var list := s.lists[UsedHead(b)];
    forall i: nat | i < n ensures UsedLink(Slot(b, i)) in list {
      assert SlotOk(s, Slot(b, i));
    }
    forall x | x in list ensures x.UsedLink? && x.slot.block == b && x.slot.index < n {
      assert InList(s.lists, UsedHead(b), x) && Fits(UsedHead(b), x);
    }
    MembersDistinct(next, prev, s.lists, UsedHead(b));
    forall x ensures x in list <==> x in UsedLinks(b, n) { InUsedLinks(b, n, x); }
    LengthOfSet(list, UsedLinks(b, n));
    UsedLinksCount(b, n);
  }

  ghost function UsedLinks(b: nat, n: nat): set<Addr> {
    if n == 0 then {} else UsedLinks(b, n - 1) + {UsedLink(Slot(b, n - 1))}
  }

  lemma {:induction false} InUsedLinks(b: nat, n: nat, a: Addr)
    ensures a in UsedLinks(b, n) <==> a.UsedLink? && a.slot.block == b && a.slot.index < n
  {
    if n > 0 { InUsedLinks(b, n - 1, a); }
  }

  lemma {:induction false} UsedLinksCount(b: nat, n: nat)
    ensures |UsedLinks(b, n)| == n
  {
    if n > 0 {
      UsedLinksCount(b, n - 1);
      InUsedLinks(b, n - 1, UsedLink(Slot(b, n - 1)));
    }
  }

  lemma {:induction false} WalkOfFull(n: nat, s: Shape, next: map<Addr, Addr>, prev: map<Addr, Addr>, k: nat)
    requires ShapeOk(n, s) && WellLinked(next, prev, s.lists) && s.held == {} && s.working == None
    requires FirstUsed in s.lists && FirstPartial in s.lists && Walkable(s.lists, Blocks(s.lists))
             && k <= |s.lists[FirstUsed]|
    ensures |WalkTo(s.lists, k)| == k * n
  {
    if k > 0 {
      WalkOfFull(n, s, next, prev, k - 1);
      FullBlock(n, s, next, prev, k - 1);
      WalkStep(s.lists, k - 1);
      NotAHead(s.lists, k - 1);
    }
  }

  /** count_active: full blocks count N each, partial ones are counted; the result is the number
      of live payloads, which is the creates less the releases. */
  method CountActive(a: Allocator) returns (count: nat)
    requires a.Valid() && a.held == {}
    ensures count == |a.used| == a.created - a.released
  {
    hide ShapeOk, WellLinked, Placed, BooksOk, Walkable, Walk;
    ghost var s, lists := a.Shape(), a.links.lists;
    WalkIsUsed(a.n, s, a.links.next, a.links.prev);
    ghost var blocks, m := Blocks(lists), |lists[FirstUsed]|;
    WalkOfFull(a.n, s, a.links.next, a.links.prev, m);
    var full := a.links.Count(FirstUsed);
    count := full * a.n;
    a.links.AfterHead(FirstPartial);
    var link := a.links.next[FirstPartial];
    ghost var k := 0;
    while link != FirstPartial
      invariant 0 <= k <= |lists[FirstPartial]|
                && link == if k < |lists[FirstPartial]| then lists[FirstPartial][k] else FirstPartial
      invariant count == |WalkTo(lists, m + k)|
      decreases |lists[FirstPartial]| - k
    {
      a.links.NextOf(FirstPartial, k);
      assert blocks[m + k] == link;
      WalkStep(lists, m + k);
      var used := a.links.Count(UsedHead(link.block));
      count := count + used;
      link := a.links.next[link];
      k := k + 1;
    }
    WalkToEnd(lists);
    BooksCount(a.payloads, a.nextId, a.created, a.released, a.destroyed);
  }
}
