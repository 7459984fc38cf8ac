/**
  The shape shared by both map views: a `reduce` that folds a list of records
  into an object keyed by a string, creating a slot the first time a key is
  seen and pushing one member per record, followed by `Object.entries`.

  The accumulator object is modelled as an association list in insertion
  order. Both views build keys that contain a comma, so no key is ever an
  integer-like property name (which JavaScript would enumerate first) and no
  key is ever the name of an inherited property (which would make the
  `!acc[key]` test see a slot that is not there).
*/
module Grouping {

  /** One record as the fold sees it: its grouping key, the place attributes
      a new slot would copy from it, and the member it contributes. */
  datatype Entry<K, P, M> = Entry(key: K, place: P, member: M)

  /** One slot of the accumulator: its key, the place attributes fixed when
      the slot was created, and the members pushed into it. */
  datatype Group<K, P, M> = Group(key: K, place: P, members: seq<M>)

  /** The keys of the records, in input order. */
  function Keys<K, P, M>(es: seq<Entry<K, P, M>>): (ks: seq<K>)
    ensures |ks| == |es|
    ensures forall i :: 0 <= i < |es| ==> ks[i] == es[i].key
  {
    seq(|es|, i requires 0 <= i < |es| => es[i].key)
  }

  /** The members the records contribute, in input order. */
  function Members<K, P, M>(es: seq<Entry<K, P, M>>): (ms: seq<M>)
    ensures |ms| == |es|
    ensures forall i :: 0 <= i < |es| ==> ms[i] == es[i].member
  {
    seq(|es|, i requires 0 <= i < |es| => es[i].member)
  }

  /** The keys of the slots, in slot order (the keys `Object.entries` lists). */
  function SlotKeys<K, P, M>(gs: seq<Group<K, P, M>>): (ks: seq<K>)
    ensures |ks| == |gs|
    ensures forall i :: 0 <= i < |gs| ==> ks[i] == gs[i].key
  {
    seq(|gs|, i requires 0 <= i < |gs| => gs[i].key)
  }

  /** Position of the first occurrence of `k` in `ks`, or `|ks|` when `k`
      does not occur. */
  function IndexOf<K(==)>(ks: seq<K>, k: K): (r: nat)
    ensures r <= |ks|
    ensures r < |ks| <==> k in ks
    ensures r < |ks| ==> ks[r] == k
    ensures forall j :: 0 <= j < r ==> ks[j] != k
  {
    if |ks| == 0 then 0
    else if ks[0] == k then 0
    else 1 + IndexOf(ks[1..], k)
  }

  // ---------------------------------------------------------------------
  // The fold as the source performs it
  // ---------------------------------------------------------------------

  /** The reduce callback: look the key up (`acc[key]`), create the slot at
      the end on first sight, then push the record's member into the slot. */
  function Step<K(==), P, M>(gs: seq<Group<K, P, M>>, e: Entry<K, P, M>): (gs': seq<Group<K, P, M>>)
    ensures Extends(gs', gs)
    ensures e.key in SlotKeys(gs) ==> SlotKeys(gs') == SlotKeys(gs)
    ensures e.key !in SlotKeys(gs) ==>
      SlotKeys(gs') == SlotKeys(gs) + [e.key] && gs'[|gs|] == Group(e.key, e.place, [e.member])
    ensures multiset(Flatten(gs')) == multiset(Flatten(gs)) + multiset{e.member}
    ensures forall j :: 0 <= j < |gs| && j != IndexOf(SlotKeys(gs), e.key) ==> gs'[j] == gs[j]
    ensures e.key in SlotKeys(gs) ==>
      gs'[IndexOf(SlotKeys(gs), e.key)].members == gs[IndexOf(SlotKeys(gs), e.key)].members + [e.member]
  {
    var i := IndexOf(SlotKeys(gs), e.key);
    if i == |gs| then
      FlattenAppend(gs, Group(e.key, e.place, [e.member]));
      gs + [Group(e.key, e.place, [e.member])]
    else
      FlattenPush(gs, i, e.member);
      gs[i := gs[i].(members := gs[i].members + [e.member])]
  }

  /** `reduce` from the empty object: the last record is folded into the
      accumulator built from all the records before it. */
  function GroupBy<K(==), P, M>(es: seq<Entry<K, P, M>>): (gs: seq<Group<K, P, M>>)
    ensures |gs| <= |es|
    ensures |gs| == 0 <==> |es| == 0
  {
    if |es| == 0 then []
    else Step(GroupBy(es[..|es| - 1]), es[|es| - 1])
  }

  // ---------------------------------------------------------------------
  // An independent description of the intended grouping
  // ---------------------------------------------------------------------

  /** The members whose key is `k`, in input order (`ks` and `ms` are the
      keys and members of the same records). */
  function MembersOf<K(==), M>(ks: seq<K>, ms: seq<M>, k: K): seq<M>
    requires |ks| == |ms|
  {
    if |ks| == 0 then []
    else
      MembersOf(ks[..|ks| - 1], ms[..|ms| - 1], k)
      + (if ks[|ks| - 1] == k then [ms[|ms| - 1]] else [])
  }

  /** Every key of `ks` is in `sk` and vice versa. */
  ghost predicate SameKeys<K>(ks: seq<K>, sk: seq<K>) {
    && (forall t :: 0 <= t < |ks| ==> ks[t] in sk)
    && (forall j :: 0 <= j < |sk| ==> sk[j] in ks)
  }

  /** The keys `sk` are listed in the order of their first occurrence in `ks`. */
  ghost predicate FirstOrder<K>(ks: seq<K>, sk: seq<K>) {
    forall i, j :: 0 <= i < j < |sk| ==> IndexOf(ks, sk[i]) < IndexOf(ks, sk[j])
  }

  /** Each slot's place is that of the first record carrying its key. */
  ghost predicate PlacesFromFirst<K, P, M>(gs: seq<Group<K, P, M>>, es: seq<Entry<K, P, M>>) {
    forall j :: 0 <= j < |gs| ==>
      gs[j].key in Keys(es) && gs[j].place == es[IndexOf(Keys(es), gs[j].key)].place
  }

  /** Each slot's members are those of the records carrying its key, in
      input order. */
  ghost predicate MembersByKey<K, P, M>(gs: seq<Group<K, P, M>>, es: seq<Entry<K, P, M>>) {
    forall j :: 0 <= j < |gs| ==> gs[j].members == MembersOf(Keys(es), Members(es), gs[j].key)
  }

  /** `gs` is the grouping of `es`: one slot for each key that occurs and for
      no other key, slots ordered by the first occurrence of their key, each
      slot's place taken from the first record with its key, and each slot's
      members those of all records with its key, in input order. */
  ghost predicate Describes<K, P, M>(gs: seq<Group<K, P, M>>, es: seq<Entry<K, P, M>>) {
    && SameKeys(Keys(es), SlotKeys(gs))
    && FirstOrder(Keys(es), SlotKeys(gs))
    && PlacesFromFirst(gs, es)
    && MembersByKey(gs, es)
  }

  /** All members of all slots, slot by slot. */
  function Flatten<K, P, M>(gs: seq<Group<K, P, M>>): seq<M>
  {
    if |gs| == 0 then [] else gs[0].members + Flatten(gs[1..])
  }

  // ---------------------------------------------------------------------
  // Facts about appending one record
  // ---------------------------------------------------------------------

  lemma KeysSnoc<K, P, M>(es: seq<Entry<K, P, M>>, e: Entry<K, P, M>)
    ensures Keys(es + [e]) == Keys(es) + [e.key]
    ensures Members(es + [e]) == Members(es) + [e.member]
  {
  }

  /** Appending a key does not move the first occurrence of a key that
      already occurs, and a new key's first occurrence is the appended one. */
  lemma {:induction false} IndexOfSnoc<K>(ks: seq<K>, x: K, k: K)
    ensures k in ks ==> IndexOf(ks + [x], k) == IndexOf(ks, k)
    ensures k !in ks && x == k ==> IndexOf(ks + [x], k) == |ks|
  {
    if |ks| > 0 {
      assert (ks + [x])[1..] == ks[1..] + [x];
      IndexOfSnoc(ks[1..], x, k);
    }
  }

  lemma MembersOfSnoc<K, M>(ks: seq<K>, ms: seq<M>, x: K, m: M, k: K)
    requires |ks| == |ms|
    ensures MembersOf(ks + [x], ms + [m], k)
         == MembersOf(ks, ms, k) + (if x == k then [m] else [])
  {
    assert (ks + [x])[..|ks|] == ks;
    assert (ms + [m])[..|ms|] == ms;
  }

  /** Every record is listed under its own key. */
  lemma {:induction false} MembersOfHolds<K, M>(ks: seq<K>, ms: seq<M>, a: nat)
    requires a < |ks| == |ms|
    ensures ms[a] in MembersOf(ks, ms, ks[a])
  {
    var n := |ks| - 1;
    MembersOfSnoc(ks[..n], ms[..n], ks[n], ms[n], ks[a]);
    assert ks[..n] + [ks[n]] == ks && ms[..n] + [ms[n]] == ms;
    if a < n {
      MembersOfHolds(ks[..n], ms[..n], a);
    }
  }

  /** A key that occurs nowhere has no members. */
  lemma {:induction false} MembersOfAbsent<K, M>(ks: seq<K>, ms: seq<M>, k: K)
    requires |ks| == |ms|
    requires k !in ks
    ensures MembersOf(ks, ms, k) == []
  {
    if |ks| > 0 {
      assert k !in ks[..|ks| - 1] by {
        assert forall t :: 0 <= t < |ks| - 1 ==> ks[..|ks| - 1][t] == ks[t];
      }
      MembersOfAbsent(ks[..|ks| - 1], ms[..|ms| - 1], k);
    }
  }

  // ---------------------------------------------------------------------
  // The fold computes the described grouping
  // ---------------------------------------------------------------------

  lemma FirstOrderKnown<K>(ks: seq<K>, sk: seq<K>, x: K)
    requires SameKeys(ks, sk) && FirstOrder(ks, sk)
    requires x in ks
    ensures SameKeys(ks + [x], sk) && FirstOrder(ks + [x], sk)
  {
    forall k | k in ks
      ensures IndexOf(ks + [x], k) == IndexOf(ks, k)
    {
      IndexOfSnoc(ks, x, k);
    }
    forall i, j | 0 <= i < j < |sk|
      ensures IndexOf(ks + [x], sk[i]) < IndexOf(ks + [x], sk[j])
    {
      assert sk[i] in ks && sk[j] in ks;
    }
  }

  lemma FirstOrderFresh<K>(ks: seq<K>, sk: seq<K>, x: K)
    requires SameKeys(ks, sk) && FirstOrder(ks, sk)
    requires x !in ks
    ensures SameKeys(ks + [x], sk + [x]) && FirstOrder(ks + [x], sk + [x])
  {
    var ks', sk' := ks + [x], sk + [x];
    forall k | k in ks
      ensures IndexOf(ks', k) == IndexOf(ks, k) < |ks|
    {
      IndexOfSnoc(ks, x, k);
    }
    IndexOfSnoc(ks, x, x);
    forall i, j | 0 <= i < j < |sk'|
      ensures IndexOf(ks', sk'[i]) < IndexOf(ks', sk'[j])
    {
      assert sk'[i] == sk[i] && sk[i] in ks;
      if j < |sk| {
        assert sk'[j] == sk[j] && sk[j] in ks;
      }
    }
  }

  /** Pushing a member into the slot of a known key keeps every slot's
      place the first one of its key. */
  lemma KnownPlaces<K, P, M>(gs: seq<Group<K, P, M>>, pre: seq<Entry<K, P, M>>, e: Entry<K, P, M>, i: nat)
    requires PlacesFromFirst(gs, pre)
    requires i < |gs| && gs[i].key == e.key
    ensures PlacesFromFirst(gs[i := gs[i].(members := gs[i].members + [e.member])], pre + [e])
  {
    var gs' := gs[i := gs[i].(members := gs[i].members + [e.member])];
    KeysSnoc(pre, e);
    forall j | 0 <= j < |gs'|
      ensures gs'[j].key in Keys(pre + [e])
      ensures gs'[j].place == (pre + [e])[IndexOf(Keys(pre + [e]), gs'[j].key)].place
    {
      assert gs'[j].key == gs[j].key && gs'[j].place == gs[j].place;
      IndexOfSnoc(Keys(pre), e.key, gs[j].key);
    }
  }

  /** Pushing a member into the slot of a known key keeps every slot's
      members those of its key. */
  lemma KnownMembers<K, P, M>(gs: seq<Group<K, P, M>>, pre: seq<Entry<K, P, M>>, e: Entry<K, P, M>, i: nat)
    requires MembersByKey(gs, pre)
    requires forall a, b :: 0 <= a < b < |gs| ==> gs[a].key != gs[b].key
    requires i < |gs| && gs[i].key == e.key
    ensures MembersByKey(gs[i := gs[i].(members := gs[i].members + [e.member])], pre + [e])
  {
    var gs' := gs[i := gs[i].(members := gs[i].members + [e.member])];
    KeysSnoc(pre, e);
    forall j | 0 <= j < |gs'|
      ensures gs'[j].members == MembersOf(Keys(pre + [e]), Members(pre + [e]), gs'[j].key)
    {
      MembersOfSnoc(Keys(pre), Members(pre), e.key, e.member, gs[j].key);
      if j != i {
        assert gs[j].key != gs[i].key by {
          if j < i { assert gs[j].key != gs[i].key; } else { assert gs[i].key != gs[j].key; }
        }
      }
    }
  }

  /** Folding a record whose key already has a slot keeps the description. */
  lemma StepOnKnownKey<K, P, M>(gs: seq<Group<K, P, M>>, pre: seq<Entry<K, P, M>>, e: Entry<K, P, M>)
    requires Describes(gs, pre)
    requires e.key in SlotKeys(gs)
    ensures Describes(Step(gs, e), pre + [e])
  {
    var sk := SlotKeys(gs);
    var i := IndexOf(sk, e.key);
    assert Step(gs, e) == gs[i := gs[i].(members := gs[i].members + [e.member])];
    KeysSnoc(pre, e);
    assert SlotKeys(Step(gs, e)) == sk;
    FirstOrderKnown(Keys(pre), sk, e.key);
    KnownPlaces(gs, pre, e, i);
    DescribedSlotsDistinct(gs, pre);
    KnownMembers(gs, pre, e, i);
  }

  /** Opening a slot for a fresh key keeps every slot's place the first one
      of its key. */
  lemma FreshPlaces<K, P, M>(gs: seq<Group<K, P, M>>, pre: seq<Entry<K, P, M>>, e: Entry<K, P, M>)
    requires PlacesFromFirst(gs, pre)
    requires e.key !in Keys(pre)
    ensures PlacesFromFirst(gs + [Group(e.key, e.place, [e.member])], pre + [e])
  {
    var gs' := gs + [Group(e.key, e.place, [e.member])];
    KeysSnoc(pre, e);
    forall j | 0 <= j < |gs'|
      ensures gs'[j].key in Keys(pre + [e])
      ensures gs'[j].place == (pre + [e])[IndexOf(Keys(pre + [e]), gs'[j].key)].place
    {
      if j < |gs| {
        assert gs'[j] == gs[j];
        IndexOfSnoc(Keys(pre), e.key, gs[j].key);
      } else {
        IndexOfSnoc(Keys(pre), e.key, e.key);
      }
    }
  }

  /** Opening a slot for a fresh key keeps every slot's members those of
      its key. */
  lemma FreshMembers<K, P, M>(gs: seq<Group<K, P, M>>, pre: seq<Entry<K, P, M>>, e: Entry<K, P, M>)
    requires MembersByKey(gs, pre)
    requires e.key !in Keys(pre)
    requires forall j :: 0 <= j < |gs| ==> gs[j].key != e.key
    ensures MembersByKey(gs + [Group(e.key, e.place, [e.member])], pre + [e])
  {
    var gs' := gs + [Group(e.key, e.place, [e.member])];
    KeysSnoc(pre, e);
    forall j | 0 <= j < |gs'|
      ensures gs'[j].members == MembersOf(Keys(pre + [e]), Members(pre + [e]), gs'[j].key)
    {
      if j < |gs| {
        assert gs'[j] == gs[j];
        MembersOfSnoc(Keys(pre), Members(pre), e.key, e.member, gs[j].key);
      } else {
        MembersOfSnoc(Keys(pre), Members(pre), e.key, e.member, e.key);
        MembersOfAbsent(Keys(pre), Members(pre), e.key);
      }
    }
  }

  /** Folding a record whose key has no slot yet keeps the description. */
  lemma StepOnFreshKey<K, P, M>(gs: seq<Group<K, P, M>>, pre: seq<Entry<K, P, M>>, e: Entry<K, P, M>)
    requires Describes(gs, pre)
    requires e.key !in SlotKeys(gs)
    ensures Describes(Step(gs, e), pre + [e])
  {
    var sk := SlotKeys(gs);
    assert Step(gs, e) == gs + [Group(e.key, e.place, [e.member])];
    KeysSnoc(pre, e);
    assert SlotKeys(Step(gs, e)) == sk + [e.key];
    assert e.key !in Keys(pre);
    FirstOrderFresh(Keys(pre), sk, e.key);
    FreshPlaces(gs, pre, e);
    assert forall j :: 0 <= j < |gs| ==> gs[j].key == sk[j];
    FreshMembers(gs, pre, e);
  }

  /** The reduce builds exactly the grouping `Describes` characterises. */
  lemma {:induction false} GroupByDescribes<K, P, M>(es: seq<Entry<K, P, M>>)
    ensures Describes(GroupBy(es), es)
  {
    if |es| > 0 {
      var pre, e := es[..|es| - 1], es[|es| - 1];
      assert es == pre + [e];
      GroupByDescribes(pre);
      if e.key in SlotKeys(GroupBy(pre)) {
        StepOnKnownKey(GroupBy(pre), pre, e);
      } else {
        StepOnFreshKey(GroupBy(pre), pre, e);
      }
    }
  }

  /** No two slots share a key. */
  lemma DescribedSlotsDistinct<K, P, M>(gs: seq<Group<K, P, M>>, es: seq<Entry<K, P, M>>)
    requires Describes(gs, es)
    ensures forall i, j :: 0 <= i < j < |gs| ==> gs[i].key != gs[j].key
  {
    var ks, sk := Keys(es), SlotKeys(gs);
    forall i, j | 0 <= i < j < |gs|
      ensures gs[i].key != gs[j].key
    {
      assert IndexOf(ks, sk[i]) < IndexOf(ks, sk[j]);
    }
  }

  // ---------------------------------------------------------------------
  // Nothing dropped, nothing duplicated
  // ---------------------------------------------------------------------

  lemma {:induction false} FlattenAppend<K, P, M>(gs: seq<Group<K, P, M>>, g: Group<K, P, M>)
    ensures Flatten(gs + [g]) == Flatten(gs) + g.members
  {
    if |gs| > 0 {
      assert (gs + [g])[1..] == gs[1..] + [g];
      FlattenAppend(gs[1..], g);
    }
  }

  lemma {:induction false} FlattenPush<K, P, M>(gs: seq<Group<K, P, M>>, i: nat, m: M)
    requires i < |gs|
    ensures multiset(Flatten(gs[i := gs[i].(members := gs[i].members + [m])]))
         == multiset(Flatten(gs)) + multiset{m}
  {
    var gs' := gs[i := gs[i].(members := gs[i].members + [m])];
    assert Flatten(gs) == gs[0].members + Flatten(gs[1..]);
    assert Flatten(gs') == gs'[0].members + Flatten(gs'[1..]);
    if i > 0 {
      var rest := gs[1..];
      assert gs'[1..] == rest[i - 1 := rest[i - 1].(members := rest[i - 1].members + [m])];
      FlattenPush(rest, i - 1, m);
      assert gs'[0] == gs[0];
    } else {
      assert gs'[1..] == gs[1..];
      assert gs'[0].members == gs[0].members + [m];
    }
  }

  /** The slots' members, taken together, are a permutation of the records'
      members: every record lands in one slot exactly once. */
  lemma {:induction false} GroupByKeepsEveryMember<K, P, M>(es: seq<Entry<K, P, M>>)
    ensures multiset(Flatten(GroupBy(es))) == multiset(Members(es))
  {
    if |es| > 0 {
      var pre, e := es[..|es| - 1], es[|es| - 1];
      assert es == pre + [e];
      GroupByKeepsEveryMember(pre);
      KeysSnoc(pre, e);
    }
  }

  /** The slots' member counts add up to the number of records. */
  lemma GroupByMemberCount<K, P, M>(es: seq<Entry<K, P, M>>)
    ensures |Flatten(GroupBy(es))| == |es|
  {
    GroupByKeepsEveryMember(es);
    assert |multiset(Flatten(GroupBy(es)))| == |multiset(Members(es))|;
  }

  // ---------------------------------------------------------------------
  // Later records never rewrite earlier slots
  // ---------------------------------------------------------------------

  /** `gs'` keeps every slot of `gs` at its position, with the same key and
      place, and members that only grew at the end. */
  ghost predicate Extends<K, P, M>(gs': seq<Group<K, P, M>>, gs: seq<Group<K, P, M>>) {
    && |gs| <= |gs'|
    && forall i :: 0 <= i < |gs| ==>
         && gs'[i].key == gs[i].key
         && gs'[i].place == gs[i].place
         && gs[i].members <= gs'[i].members
  }

  /** Folding more records only appends: the slots made for a prefix of the
      input keep their position, key and place, and their member lists only
      grow at the end. */
  lemma {:induction false} GroupByPrefixStable<K, P, M>(es: seq<Entry<K, P, M>>, more: seq<Entry<K, P, M>>)
    ensures Extends(GroupBy(es + more), GroupBy(es))
  {
    if |more| == 0 {
      assert es + more == es;
    } else {
      var more', x := more[..|more| - 1], more[|more| - 1];
      assert (es + more)[..|es + more| - 1] == es + more';
      assert (es + more)[|es + more| - 1] == x;
      GroupByPrefixStable(es, more');
      var mid := GroupBy(es + more');
      assert Extends(Step(mid, x), mid);
    }
  }

  /** A key that comes back after another key joins its first slot rather
      than opening a new one: slots follow first occurrence, not runs of
      equal keys. */
  lemma ReturningKeyJoinsFirstSlot<K, P, M>(a: Entry<K, P, M>, b: Entry<K, P, M>, c: Entry<K, P, M>)
    requires a.key == c.key && a.key != b.key
    ensures GroupBy([a, b, c]) ==
      [Group(a.key, a.place, [a.member, c.member]), Group(b.key, b.place, [b.member])]
  {
    assert [a, b, c][..2] == [a, b];
    var g2 := TwoFreshKeys(a, b);
    assert SlotKeys(g2) == [a.key, b.key];
    assert IndexOf(SlotKeys(g2), c.key) == 0;
    var g3 := Step(g2, c);
    assert g3 == g2[0 := g2[0].(members := g2[0].members + [c.member])];
    assert g3[0].members == [a.member, c.member];
    assert g3[1] == g2[1];
  }

  /** Two entries with one key share one slot, placed by the first. */
  lemma SharedKeyOneSlot<K, P, M>(a: Entry<K, P, M>, b: Entry<K, P, M>)
    requires a.key == b.key
    ensures GroupBy([a, b]) == [Group(a.key, a.place, [a.member, b.member])]
  {
    assert [a, b][..1] == [a];
    var g1 := GroupBy([a]);
    assert g1 == Step([], a) == [Group(a.key, a.place, [a.member])];
    assert IndexOf(SlotKeys(g1), b.key) == 0;
    assert GroupBy([a, b]) == Step(g1, b) == g1[0 := g1[0].(members := g1[0].members + [b.member])];
    assert [a.member] + [b.member] == [a.member, b.member];
  }

  /** Two entries with different keys open one slot each, in input order. */
  lemma TwoFreshKeys<K, P, M>(a: Entry<K, P, M>, b: Entry<K, P, M>) returns (g2: seq<Group<K, P, M>>)
    requires a.key != b.key
    ensures g2 == GroupBy([a, b])
    ensures g2 == [Group(a.key, a.place, [a.member]), Group(b.key, b.place, [b.member])]
  {
    assert [a, b][..1] == [a];
    var g1 := GroupBy([a]);
    assert g1 == Step([], a);
    assert IndexOf(SlotKeys(g1), b.key) == 1;
    g2 := GroupBy([a, b]);
    assert g2 == Step(g1, b) == g1 + [Group(b.key, b.place, [b.member])];
  }
}
