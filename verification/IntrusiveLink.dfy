/**
 Circular doubly linked lists threaded through other objects. The links are addresses in one
 space; `next` and `prev` are what is stored at each. A link that is in no list points to
 itself, and so does the head of an empty list.
 */
module IntrusiveLink {
  import opened Basics

  /** The successor of position `k` in a circle. */
  function After<A>(circle: seq<A>, k: nat): A
    requires k < |circle|
  {
    if k + 1 < |circle| then circle[k + 1] else circle[0]
  }

  ghost predicate Distinct<A>(s: seq<A>) {
    forall j, k | 0 <= j < k < |s| :: s[j] != s[k]
  }

  /** The list of `head` is `members`, in order: a well-formed circle. */
  ghost predicate Ring<A>(next: map<A, A>, prev: map<A, A>, head: A, members: seq<A>) {
    var circle := [head] + members;
    && Distinct(circle)
    && forall k | 0 <= k < |circle| :: Joined(next, prev, circle[k], After(circle, k))
  }

  predicate Joined<A>(next: map<A, A>, prev: map<A, A>, a: A, b: A) {
    a in next && next[a] == b && b in prev && prev[b] == a
  }

  /** Every list is a well-formed circle, no link is in two lists or twice in one, and a link in
      no list points to itself. */
  ghost predicate WellLinked<A(!new)>(next: map<A, A>, prev: map<A, A>, lists: map<A, seq<A>>) {
    && next.Keys == prev.Keys
    && (forall h <- lists :: Ring(next, prev, h, lists[h]))
    && (forall h, a | InList(lists, h, a) :: a in next && a !in lists)
    && (forall h, g, a | InList(lists, h, a) && InList(lists, g, a) :: h == g)
    && (forall a <- next | a !in lists :: InSome(lists, a) || Joined(next, prev, a, a))
  }

  predicate InList<A(==)>(lists: map<A, seq<A>>, head: A, a: A) { head in lists && a in lists[head] }

  ghost predicate InSome<A(!new)>(lists: map<A, seq<A>>, a: A) { exists h :: InList(lists, h, a) }

  /** No link is twice in a list. */
  lemma MembersDistinct<A(!new)>(next: map<A, A>, prev: map<A, A>, lists: map<A, seq<A>>, head: A)
    requires WellLinked(next, prev, lists) && head in lists
    ensures Distinct(lists[head])
  {
    assert Ring(next, prev, head, lists[head]);
    hide WellLinked;
    DistinctTail(head, lists[head]);
  }

  lemma DistinctTail<A>(head: A, members: seq<A>)
    requires Distinct([head] + members)
    ensures Distinct(members)
  {
    var circle := [head] + members;
    forall i, j | 0 <= i < j < |members| ensures members[i] != members[j] {
      assert circle[i + 1] == members[i] && circle[j + 1] == members[j];
    }
  }

  /** The links that the circle of `head` runs through. */
  predicate OnCircle<A(==)>(head: A, members: seq<A>, a: A) { a == head || a in members }

  // --------------------------------------------------------------------------
  // Pointer surgery, on values
  // --------------------------------------------------------------------------

  /** A circle is untouched by changes to links that are not on it. */
  lemma RingUntouched<A>(next: map<A, A>, prev: map<A, A>, next': map<A, A>, prev': map<A, A>, head: A, members: seq<A>)
    requires Ring(next, prev, head, members)
    requires forall a <- next :: OnCircle(head, members, a) ==> a in next' && next'[a] == next[a]
    requires forall a <- prev :: OnCircle(head, members, a) ==> a in prev' && prev'[a] == prev[a]
    ensures Ring(next', prev', head, members)
  {
    var circle := [head] + members;
    forall k | 0 <= k < |circle| ensures Joined(next', prev', circle[k], After(circle, k)) {
      assert Joined(next, prev, circle[k], After(circle, k));
      assert OnCircle(head, members, circle[k]) && OnCircle(head, members, After(circle, k));
    }
  }

  /** Linking `a` behind the head of a circle. */
  lemma RingLinks<A>(next: map<A, A>, prev: map<A, A>, head: A, members: seq<A>, a: A)
    requires Ring(next, prev, head, members) && !OnCircle(head, members, a)
    ensures head in next
    ensures Ring(next[a := next[head]][head := a], prev[a := head][next[head] := a], head, [a] + members)
  {
    var circle, circle' := [head] + members, [head] + ([a] + members);
    assert Joined(next, prev, circle[0], After(circle, 0));
    var next', prev' := next[a := next[head]][head := a], prev[a := head][next[head] := a];
    forall k | 0 <= k < |circle'| ensures circle'[k] == if k == 0 then head else if k == 1 then a else circle[k - 1] {}
    assert Distinct(circle');
    forall k | 0 <= k < |circle'| ensures Joined(next', prev', circle'[k], After(circle', k)) {
      if k >= 2 { assert Joined(next, prev, circle[k - 1], After(circle, k - 1)); }
    }
  }

  /** Unlinking the member at position `k`. */
  lemma RingUnlinks<A>(next: map<A, A>, prev: map<A, A>, head: A, members: seq<A>, k: nat)
    requires Ring(next, prev, head, members) && k < |members|
    ensures var a := members[k];
            && a in next && a in prev && next[a] != a && prev[a] != a
            && OnCircle(head, members, next[a]) && OnCircle(head, members, prev[a])
            && Ring(next[prev[a] := next[a]][a := a], prev[next[a] := prev[a]][a := a], head,
                    members[..k] + members[k + 1..])
  {
    var a, circle := members[k], [head] + members;
    var rest := members[..k] + members[k + 1..];
    var circle' := [head] + rest;
    assert circle[k + 1] == a;
    assert Joined(next, prev, circle[k], After(circle, k));
    assert Joined(next, prev, circle[k + 1], After(circle, k + 1));
    var next', prev' := next[prev[a] := next[a]][a := a], prev[next[a] := prev[a]][a := a];
    forall j | 0 <= j < |circle'| ensures circle'[j] == circle[if j <= k then j else j + 1] {}
    assert Distinct(circle');
    forall j | 0 <= j < |circle'| ensures Joined(next', prev', circle'[j], After(circle', j)) {
      var i := if j <= k then j else j + 1;
      assert Joined(next, prev, circle[i], After(circle, i));
      assert After(circle', j) == if j == k then After(circle, k + 1) else After(circle, i);
    }
  }

  /** `linked()` is true of exactly the links that are in a list. */
  lemma LinkedIsInSome<A(!new)>(next: map<A, A>, prev: map<A, A>, lists: map<A, seq<A>>, a: A)
    requires WellLinked(next, prev, lists) && a in next && a !in lists
    ensures next[a] != a <==> InSome(lists, a)
  {
    if InSome(lists, a) {
      var h :| InList(lists, h, a);
      var k :| 0 <= k < |lists[h]| && lists[h][k] == a;
      RingUnlinks(next, prev, h, lists[h], k);
    }
  }

  /** The list of `head` becomes `members`, which moves `a` in or out and nothing else; the other
      circles are not touched. */
  ghost predicate OneMoved<A(!new)>(next: map<A, A>, prev: map<A, A>, next': map<A, A>, prev': map<A, A>,
    lists: map<A, seq<A>>, head: A, members: seq<A>, a: A)
  {
    && head in lists && next'.Keys == next.Keys && prev'.Keys == prev.Keys && a in next && a !in lists
    && (forall x <- next | !OnCircle(head, lists[head], x) && x != a ::
        x in prev && next'[x] == next[x] && prev'[x] == prev[x])
    && (forall x | x != a :: x in members <==> x in lists[head])
    && (a in members || Joined(next', prev', a, a))
    && forall h | InList(lists, h, a) :: h == head
  }

  lemma OneMovedKeeps<A(!new)>(next: map<A, A>, prev: map<A, A>, next': map<A, A>, prev': map<A, A>,
    lists: map<A, seq<A>>, head: A, members: seq<A>, a: A)
    requires WellLinked(next, prev, lists) && OneMoved(next, prev, next', prev', lists, head, members, a)
    requires Ring(next', prev', head, members)
    ensures WellLinked(next', prev', lists[head := members])
  {
    var lists' := lists[head := members];
    forall h, x | InList(lists', h, x)
      ensures x in next && x !in lists && (if x == a then h == head else InList(lists, h, x)) {
      if x != a { assert InList(lists, h, x); } else { assert h != head ==> InList(lists, h, a); }
    }
    forall h <- lists' ensures Ring(next', prev', h, lists'[h]) {
      if h != head { OtherRingKept(next, prev, next', prev', lists, head, members, a, h); }
    }
    forall x <- next' | x !in lists' ensures InSome(lists', x) || Joined(next', prev', x, x) {
      StaysOrAlone(next, prev, next', prev', lists, head, members, a, x);
    }
  }

  lemma OtherRingKept<A(!new)>(next: map<A, A>, prev: map<A, A>, next': map<A, A>, prev': map<A, A>,
    lists: map<A, seq<A>>, head: A, members: seq<A>, a: A, h: A)
    requires WellLinked(next, prev, lists) && OneMoved(next, prev, next', prev', lists, head, members, a) && h in lists
             && h != head
    ensures Ring(next', prev', h, lists[h])
  {
    forall x <- next | OnCircle(h, lists[h], x) ensures !OnCircle(head, lists[head], x) && x != a && x in prev {
      if x != h { assert InList(lists, h, x); }
      if x in lists[head] { assert InList(lists, head, x); }
    }
    RingUntouched(next, prev, next', prev', h, lists[h]);
  }

  lemma StaysOrAlone<A(!new)>(next: map<A, A>, prev: map<A, A>, next': map<A, A>, prev': map<A, A>,
    lists: map<A, seq<A>>, head: A, members: seq<A>, a: A, x: A)
    requires WellLinked(next, prev, lists) && OneMoved(next, prev, next', prev', lists, head, members, a)
    requires x in next && x !in lists
    ensures InSome(lists[head := members], x) || Joined(next', prev', x, x)
  {
    if x == a {
      if a in members { assert InList(lists[head := members], head, a); }
    } else if InSome(lists, x) {
      var h :| InList(lists, h, x);
      assert InList(lists[head := members], h, x);
    } else {
      assert !InList(lists, head, x);
    }
  }

  lemma FirstOnCircle<A>(next: map<A, A>, prev: map<A, A>, head: A, members: seq<A>)
    requires Ring(next, prev, head, members)
    ensures head in next && head in prev && OnCircle(head, members, next[head]) && OnCircle(head, members, prev[head])
    ensures next[head] == if members == [] then head else members[0]
  {
    var circle := [head] + members;
    assert Joined(next, prev, circle[0], After(circle, 0));
    assert Joined(next, prev, circle[|members|], After(circle, |members|));
  }

  lemma LinkKeeps<A(!new)>(next: map<A, A>, prev: map<A, A>, lists: map<A, seq<A>>, head: A, a: A)
    requires WellLinked(next, prev, lists) && head in lists && a in next && a !in lists && next[a] == a
    ensures head in next && next[head] in prev
    ensures WellLinked(next[a := next[head]][head := a], prev[a := head][next[head] := a],
                       lists[head := [a] + lists[head]])
  {
    LinkedIsInSome(next, prev, lists, a);
    assert !InList(lists, head, a);
    FirstOnCircle(next, prev, head, lists[head]);
    OnCircleStored(next, prev, head, lists[head], next[head]);
    RingLinks(next, prev, head, lists[head], a);
    var next', prev' := next[a := next[head]][head := a], prev[a := head][next[head] := a];
    assert next'.Keys == next.Keys && prev'.Keys == prev.Keys;
    OneMovedKeeps(next, prev, next', prev', lists, head, [a] + lists[head], a);
  }

  lemma UnlinkKeeps<A(!new)>(next: map<A, A>, prev: map<A, A>, lists: map<A, seq<A>>, head: A, k: nat)
    requires WellLinked(next, prev, lists) && head in lists && k < |lists[head]|
    ensures var a := lists[head][k];
            && a in next && a in prev && next[a] != a && next[a] in prev && prev[a] in next
            && WellLinked(next[prev[a] := next[a]][a := a], prev[next[a] := prev[a]][a := a],
                          lists[head := lists[head][..k] + lists[head][k + 1..]])
  {
    var a, members := lists[head][k], lists[head];
    var rest := members[..k] + members[k + 1..];
    RingUnlinks(next, prev, head, members, k);
    OnCircleStored(next, prev, head, members, next[a]);
    OnCircleStored(next, prev, head, members, prev[a]);
    assert InList(lists, head, a);
    var next', prev' := next[prev[a] := next[a]][a := a], prev[next[a] := prev[a]][a := a];
    WithoutOne(next, prev, head, members, k);
    assert next'.Keys == next.Keys && prev'.Keys == prev.Keys;
    OneMovedKeeps(next, prev, next', prev', lists, head, rest, a);
  }

  lemma OnCircleStored<A>(next: map<A, A>, prev: map<A, A>, head: A, members: seq<A>, a: A)
    requires Ring(next, prev, head, members) && OnCircle(head, members, a)
    ensures a in next && a in prev
  {
    var circle := [head] + members;
    var k := PlaceOn(head, members, a);
    assert Joined(next, prev, circle[k], After(circle, k));
    var j := if k == 0 then |members| else k - 1;
    assert Joined(next, prev, circle[j], After(circle, j));
  }

  lemma PlaceOn<A>(head: A, members: seq<A>, a: A) returns (k: nat)
    requires OnCircle(head, members, a)
    ensures k < |[head] + members| && ([head] + members)[k] == a
  {
    if a == head { return 0; }
    var i :| 0 <= i < |members| && members[i] == a;
    k := i + 1;
  }

  lemma WithoutOne<A>(next: map<A, A>, prev: map<A, A>, head: A, members: seq<A>, k: nat)
    requires Ring(next, prev, head, members) && k < |members|
    ensures forall x :: x in members[..k] + members[k + 1..] <==> x in members && x != members[k]
  {
    var rest, circle := members[..k] + members[k + 1..], [head] + members;
    assert circle[k + 1] == members[k];
    forall x | x in rest ensures x in members && x != members[k] {
      var i :| 0 <= i < |rest| && rest[i] == x;
      assert circle[if i < k then i + 1 else i + 2] == x;
    }
    forall x | x in members && x != members[k] ensures x in rest {
      var i :| 0 <= i < |members| && members[i] == x;
      assert rest[if i < k then i else i - 1] == x;
    }
  }

  // --------------------------------------------------------------------------
  // The links
  // --------------------------------------------------------------------------

  class LinkSpace<A(==,!new)> {
    var next: map<A, A>
    var prev: map<A, A>
    ghost var lists: map<A, seq<A>>

    ghost predicate Valid()
      reads this
    {
      WellLinked(next, prev, lists)
    }

    constructor ()
      ensures Valid() && lists == map[] && next == map[]
    {
      next, prev, lists := map[], map[], map[];
    }

    /** A new link, pointing to itself. */
    method NewLink(a: A)
      requires Valid() && a !in next
      modifies this
      ensures Valid() && lists == old(lists) && next == old(next)[a := a]
    {
      AddKeeps(next, prev, lists, a);
      next, prev := next[a := a], prev[a := a];
    }

    /** A new link that is the head of an empty list. */
    method NewHead(a: A)
      requires Valid() && a !in next
      modifies this
      ensures Valid() && lists == old(lists)[a := []] && next == old(next)[a := a]
    {
      AddKeeps(next, prev, lists, a);
      AddHeadKeeps(next[a := a], prev[a := a], lists, a);
      next, prev, lists := next[a := a], prev[a := a], lists[a := []];
    }

    predicate Linked(a: A)
      requires a in next
      reads this
    {
      next[a] != a
    }

    /** Puts an unlinked link at the front of the list. */
    method Link(head: A, other: A)
      requires Valid() && head in lists && other in next && other !in lists && !Linked(other)
      modifies this
      ensures Valid() && lists == old(lists)[head := [other] + old(lists)[head]] && next.Keys == old(next).Keys
    {
      LinkKeeps(next, prev, lists, head, other);
      var first := next[head];
      next := next[other := first];
      prev := prev[other := head];
      prev := prev[first := other];
      next := next[head := other];
      lists := lists[head := [other] + lists[head]];
    }

    /** Takes a link out of whichever list it is in. */
    method Unlink(a: A, ghost head: A, ghost k: nat)
      requires Valid() && head in lists && k < |lists[head]| && lists[head][k] == a
      modifies this
      ensures Valid() && lists == old(lists)[head := old(lists)[head][..k] + old(lists)[head][k + 1..]]
              && next.Keys == old(next).Keys
      ensures a in next && !Linked(a)
      ensures forall x :: x in lists[head] <==> x in old(lists)[head] && x != a
    {
      UnlinkKeeps(next, prev, lists, head, k);
      WithoutOne(next, prev, head, lists[head], k);
      var n, p := next[a], prev[a];
      next := next[p := n];
      prev := prev[n := p];
      next := next[a := a];
      prev := prev[a := a];
      lists := lists[head := lists[head][..k] + lists[head][k + 1..]];
    }

    /** A link that is no head is linked exactly when some list has it. */
    lemma LinkedIff(a: A)
      requires Valid() && a in next && a !in lists
      ensures Linked(a) <==> InSome(lists, a)
    {
      LinkedIsInSome(next, prev, lists, a);
    }

    method First(head: A) returns (first: Option<A>)
      requires Valid() && head in lists
      ensures first == if lists[head] == [] then None else Some(lists[head][0])
    {
      FirstOnCircle(next, prev, head, lists[head]);
      NotItself(next, prev, head, lists[head]);
      first := if next[head] == head then None else Some(next[head]);
    }

    /** The link after position `k`, which is the head after the last. */
    lemma NextOf(head: A, k: nat)
      requires Valid() && head in lists && k < |lists[head]|
      ensures lists[head][k] in next
      ensures next[lists[head][k]] == if k + 1 < |lists[head]| then lists[head][k + 1] else head
      ensures lists[head][k] != head
    {
      var circle := [head] + lists[head];
      assert circle[k + 1] == lists[head][k] && circle[0] == head;
      assert Joined(next, prev, circle[k + 1], After(circle, k + 1));
    }

    lemma AfterHead(head: A)
      requires Valid() && head in lists
      ensures head in next && next[head] == if lists[head] == [] then head else lists[head][0]
    {
      FirstOnCircle(next, prev, head, lists[head]);
    }

    method Contains(head: A, other: A) returns (found: bool)
      requires Valid() && head in lists
      ensures found <==> other in lists[head]
    {
      FirstOnCircle(next, prev, head, lists[head]);
      NotItself(next, prev, head, lists[head]);
      var link := next[head];
      ghost var k := 0;
      while link != head
        invariant k <= |lists[head]| && link == if k < |lists[head]| then lists[head][k] else head
        invariant other !in lists[head][..k]
        decreases |lists[head]| - k
      {
        NextOf(head, k);
        if link == other { return true; }
        assert lists[head][..k + 1] == lists[head][..k] + [link];
        link := next[link];
        k := k + 1;
      }
      assert lists[head][..k] == lists[head];
      found := false;
    }

    method Count(head: A) returns (count: nat)
      requires Valid() && head in lists
      ensures count == |lists[head]|
    {
      FirstOnCircle(next, prev, head, lists[head]);
      NotItself(next, prev, head, lists[head]);
      count := 0;
      var link := next[head];
      while link != head
        invariant count <= |lists[head]| && link == if count < |lists[head]| then lists[head][count] else head
        decreases |lists[head]| - count
      {
        NextOf(head, count);
        link := next[link];
        count := count + 1;
      }
    }
  }

  lemma NotItself<A>(next: map<A, A>, prev: map<A, A>, head: A, members: seq<A>)
    requires Ring(next, prev, head, members)
    ensures forall k | 0 <= k < |members| :: members[k] != head
  {
    var circle := [head] + members;
    forall k | 0 <= k < |members| ensures members[k] != head {
      assert circle[k + 1] == members[k] && circle[0] == head;
    }
  }

  lemma AddKeeps<A(!new)>(next: map<A, A>, prev: map<A, A>, lists: map<A, seq<A>>, a: A)
    requires WellLinked(next, prev, lists) && a !in next
    ensures a !in lists && WellLinked(next[a := a], prev[a := a], lists)
  {
    if a in lists { FirstOnCircle(next, prev, a, lists[a]); }
    forall h <- lists ensures Ring(next[a := a], prev[a := a], h, lists[h]) {
      forall x | OnCircle(h, lists[h], x) ensures x != a { OnCircleStored(next, prev, h, lists[h], x); }
      RingUntouched(next, prev, next[a := a], prev[a := a], h, lists[h]);
    }
  }

  lemma AddHeadKeeps<A(!new)>(next: map<A, A>, prev: map<A, A>, lists: map<A, seq<A>>, a: A)
    requires WellLinked(next, prev, lists) && a in next && a !in lists && Joined(next, prev, a, a)
    ensures WellLinked(next, prev, lists[a := []])
  {
    LinkedIsInSome(next, prev, lists, a);
    var lists' := lists[a := []];
    assert Ring(next, prev, a, []) by { assert [a] + [] == [a]; }
    forall h <- lists' ensures Ring(next, prev, h, lists'[h]) {
      if h != a { assert h in lists; }
    }
    forall h, x | InList(lists', h, x) ensures InList(lists, h, x) && x != a {
      assert InList(lists, h, x);
      if x == a { assert InSome(lists, a); }
    }
    forall x <- next | x !in lists' ensures InSome(lists', x) || Joined(next, prev, x, x) {
      if InSome(lists, x) {
        var h :| InList(lists, h, x);
        assert InList(lists', h, x);
      }
    }
  }
}
