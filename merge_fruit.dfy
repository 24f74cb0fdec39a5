/** The fruit-merge game, integer part: the tier table, the labels the game
    puts on its bodies, the merge of two equal fruits on collision, the
    choice of the next fruit, the drop cooldown, the clamp of the drop
    position and the end of the game. Positions, velocities and the physics
    engine's own stepping are not modelled: the world is the sequence of
    fruit bodies in insertion order. */
module MergeFruit {
  import opened Common
  import opened Store

  datatype Fruit = Fruit(radius: nat, score: nat)

  /** Cherry, strawberry, grape, tangerine, apple, pear, peach, pineapple,
      melon, watermelon. */
  const Fruits: seq<Fruit> := [Fruit(15, 1), Fruit(20, 2), Fruit(25, 3), Fruit(30, 5), Fruit(35, 8),
                               Fruit(40, 13), Fruit(45, 21), Fruit(50, 34), Fruit(55, 55), Fruit(60, 89)]

  /** The rank of the watermelon, the last tier: two of them do not merge. */
  const Top: nat := 9

  const GameWidth: int := 350

  /** Ten tiers; radii grow by 5 from 15, and each score is the sum of the
      two before it. */
  lemma TierTable()
    ensures |Fruits| == Top + 1
    ensures forall i :: 0 <= i < |Fruits| ==> Fruits[i].radius == 15 + 5 * i
    ensures forall i :: 2 <= i < |Fruits| ==> Fruits[i].score == Fruits[i - 1].score + Fruits[i - 2].score
  {
  }

  // Labels

  const Prefix: string := "fruit-"

  predicate IsDigit(c: char)
  {
    '0' <= c <= '9'
  }

  function DigitChar(d: nat): (c: char)
    requires d < 10
    ensures IsDigit(c) && c as int - '0' as int == d
  {
    ('0' as int + d) as char
  }

  /** The decimal numeral of `n`, as a template literal prints it. */
  function Digits(n: nat): (s: string)
    ensures |s| > 0 && forall i :: 0 <= i < |s| ==> IsDigit(s[i])
    decreases n
  {
    if n < 10 then [DigitChar(n)] else Digits(n / 10) + [DigitChar(n % 10)]
  }

  /** The label of a body of rank `r`: `fruit-${r}`, the prefix followed by
      a non-empty numeral. */
  function Label(r: nat): (s: string)
    ensures Prefix <= s && |s| > |Prefix|
    ensures forall i :: |Prefix| <= i < |s| ==> IsDigit(s[i])
  {
    Prefix + Digits(r)
  }

  /** The value of a numeral. */
  function Value(ds: string): nat
    requires forall i :: 0 <= i < |ds| ==> IsDigit(ds[i])
  {
    if ds == [] then 0 else Value(ds[..|ds| - 1]) * 10 + DigitValue(ds[|ds| - 1])
  }

  function DigitValue(c: char): nat
    requires IsDigit(c)
  {
    c as int - '0' as int
  }

  /** The text before the first '-': element 1 of `split('-')` once the
      prefix is gone. */
  function Segment(s: string): (t: string)
    ensures t <= s && forall i :: 0 <= i < |t| ==> t[i] != '-'
    ensures |t| < |s| ==> s[|t|] == '-'
  {
    if s == [] || s[0] == '-' then [] else [s[0]] + Segment(s[1..])
  }

  /** The digits `parseInt` reads before the first non-digit. */
  function LeadingDigits(s: string): (t: string)
    ensures t <= s && forall i :: 0 <= i < |t| ==> IsDigit(t[i])
    ensures |t| < |s| ==> !IsDigit(s[|t|])
  {
    if s == [] || !IsDigit(s[0]) then [] else [s[0]] + LeadingDigits(s[1..])
  }

  /** The rank a label names: None when it does not start with `fruit-` or
      when `parseInt` of its numeric part gives NaN. */
  function ParseIndex(name: string): (r: Option<nat>)
    ensures r.Some? ==> Prefix <= name && |name| > |Prefix| && IsDigit(name[|Prefix|])
  {
    if !(Prefix <= name) then None
    else
      var ds := LeadingDigits(Segment(name[|Prefix|..]));
      if ds == [] then None else Some(Value(ds))
  }

  /** Reading a label back gives the rank it was made from. */
  lemma LabelRoundTrip(r: nat)
    ensures ParseIndex(Label(r)) == Some(r)
  {
    var ds := Digits(r);
    assert Label(r)[|Prefix|..] == ds;
    NoDash(ds);
    AllDigits(ds);
    ValueOfDigits(r);
  }

  lemma {:induction false} NoDash(s: string)
    requires forall i :: 0 <= i < |s| ==> IsDigit(s[i])
    ensures Segment(s) == s
  {
    if s != [] {
      NoDash(s[1..]);
    }
  }

  lemma {:induction false} AllDigits(s: string)
    requires forall i :: 0 <= i < |s| ==> IsDigit(s[i])
    ensures LeadingDigits(s) == s
  {
    if s != [] {
      AllDigits(s[1..]);
    }
  }

  lemma {:induction false} ValueOfDigits(n: nat)
    ensures Value(Digits(n)) == n
    decreases n
  {
    if n >= 10 {
      ValueOfDigits(n / 10);
      assert Digits(n)[..|Digits(n)| - 1] == Digits(n / 10);
    }
  }

  /** Different ranks have different labels. */
  lemma LabelInjective(r: nat, q: nat)
    requires Label(r) == Label(q)
    ensures r == q
  {
    LabelRoundTrip(r);
    LabelRoundTrip(q);
  }

  // The world

  /** A body in the engine's world: an identity and its label. */
  datatype Body = Body(id: nat, name: string)

  /** A fruit body carries the label of a rank of the table. */
  predicate IsFruit(b: Body)
  {
    ParseIndex(b.name).Some? && ParseIndex(b.name).value <= Top && b.name == Label(ParseIndex(b.name).value)
  }

  function RankOf(b: Body): nat
  {
    if ParseIndex(b.name).Some? then ParseIndex(b.name).value else 0
  }

  /** Every body is a fruit, identities are distinct and below `nextId`. */
  predicate WorldOk(ws: seq<Body>, nextId: nat)
  {
    && (forall i :: 0 <= i < |ws| ==> IsFruit(ws[i]) && ws[i].id < nextId)
    && DistinctIds(ws)
  }

  predicate DistinctIds(ws: seq<Body>)
  {
    forall i, j :: 0 <= i < j < |ws| ==> ws[i].id != ws[j].id
  }

  function Pow2(n: nat): (p: nat)
    ensures p >= 1
  {
    if n == 0 then 1 else 2 * Pow2(n - 1)
  }

  /** The number of cherries the fruits in `ws` are worth: two fruits of
      one rank make one of the next. */
  function Mass(ws: seq<Body>): nat
  {
    if ws == [] then 0 else Mass(ws[..|ws| - 1]) + Pow2(RankOf(ws[|ws| - 1]))
  }

  /** The ranks of the fruits in `ws`. */
  function Ranks(ws: seq<Body>): multiset<nat>
  {
    if ws == [] then multiset{} else Ranks(ws[..|ws| - 1]) + multiset{RankOf(ws[|ws| - 1])}
  }

  /** `Composite.remove`: the body with identity `id` leaves the world; a
      body that is not there is ignored. */
  function RemoveBody(ws: seq<Body>, id: nat): (r: seq<Body>)
    ensures |r| <= |ws|
  {
    if ws == [] then []
    else
      var init := RemoveBody(ws[..|ws| - 1], id);
      if ws[|ws| - 1].id == id then init else init + [ws[|ws| - 1]]
  }

  /** What is left after a removal is what was there with another identity. */
  lemma {:induction false} RemoveMembers(ws: seq<Body>, id: nat)
    ensures var r := RemoveBody(ws, id);
            && (forall i :: 0 <= i < |r| ==> r[i] in ws && r[i].id != id)
            && (forall b :: b in ws && b.id != id ==> b in r)
  {
    if ws != [] {
      var init, last := ws[..|ws| - 1], ws[|ws| - 1];
      RemoveMembers(init, id);
      assert ws == init + [last];
    }
  }

  /** Removing a body that is absent changes nothing. */
  lemma {:induction false} RemoveAbsent(ws: seq<Body>, id: nat)
    requires forall i :: 0 <= i < |ws| ==> ws[i].id != id
    ensures RemoveBody(ws, id) == ws
  {
    if ws != [] {
      var init := ws[..|ws| - 1];
      assert forall i :: 0 <= i < |init| ==> init[i] == ws[i];
      RemoveAbsent(init, id);
      assert init + [ws[|ws| - 1]] == ws;
    }
  }

  /** Removing keeps the world well formed. */
  lemma RemoveKeepsOk(ws: seq<Body>, nextId: nat, id: nat)
    requires WorldOk(ws, nextId)
    ensures WorldOk(RemoveBody(ws, id), nextId)
  {
    RemoveKeepsDistinct(ws, id);
    RemoveMembers(ws, id);
    var r := RemoveBody(ws, id);
    forall i | 0 <= i < |r|
      ensures IsFruit(r[i]) && r[i].id < nextId
    {
      assert r[i] in ws;
    }
  }

  /** Removing keeps identities distinct. */
  lemma {:induction false} RemoveKeepsDistinct(ws: seq<Body>, id: nat)
    requires DistinctIds(ws)
    ensures DistinctIds(RemoveBody(ws, id))
  {
    if ws != [] {
      var init := ws[..|ws| - 1];
      var last := ws[|ws| - 1];
      RemoveKeepsDistinct(init, id);
      RemoveMembers(init, id);
      if last.id != id {
        var r := RemoveBody(init, id) + [last];
        forall i, j | 0 <= i < j < |r|
          ensures r[i].id != r[j].id
        {
          if j == |r| - 1 {
            assert r[i] in init;
            var k :| 0 <= k < |init| && init[k] == r[i];
            assert ws[k] == r[i];
          }
        }
      }
    }
  }

  /** Removing a body that is present takes its rank out of the world and
      nothing else. */
  lemma {:induction false} RemovePresent(ws: seq<Body>, b: Body)
    requires DistinctIds(ws) && b in ws
    ensures |RemoveBody(ws, b.id)| == |ws| - 1
    ensures Mass(RemoveBody(ws, b.id)) + Pow2(RankOf(b)) == Mass(ws)
    ensures Ranks(RemoveBody(ws, b.id)) + multiset{RankOf(b)} == Ranks(ws)
  {
    var k :| 0 <= k < |ws| && ws[k] == b;
    RemoveAtIndex(ws, k);
    WithoutIndex(ws, k);
  }

  /** With distinct identities, removing the body at position `k` cuts
      exactly that position out. */
  lemma {:induction false} RemoveAtIndex(ws: seq<Body>, k: nat)
    requires DistinctIds(ws) && k < |ws|
    ensures RemoveBody(ws, ws[k].id) == ws[..k] + ws[k + 1..]
  {
    var init, last := ws[..|ws| - 1], ws[|ws| - 1];
    if k == |ws| - 1 {
      RemoveAbsent(init, last.id);
      assert ws[..k] + ws[k + 1..] == init;
    } else {
      assert DistinctIds(init) && init[k] == ws[k] && last.id != ws[k].id;
      RemoveAtIndex(init, k);
      assert ws[..k] + ws[k + 1..] == (init[..k] + init[k + 1..]) + [last];
    }
  }

  /** Cutting out position `k` takes that fruit's rank out of the mass and of the ranks. */
  lemma {:induction false} WithoutIndex(ws: seq<Body>, k: nat)
    requires k < |ws|
    ensures Mass(ws[..k] + ws[k + 1..]) + Pow2(RankOf(ws[k])) == Mass(ws)
    ensures Ranks(ws[..k] + ws[k + 1..]) + multiset{RankOf(ws[k])} == Ranks(ws)
  {
    var init, last := ws[..|ws| - 1], ws[|ws| - 1];
    var r := ws[..k] + ws[k + 1..];
    if k == |ws| - 1 {
      assert r == init;
    } else {
      WithoutIndex(init, k);
      assert r[..|r| - 1] == init[..k] + init[k + 1..] && r[|r| - 1] == last && init[k] == ws[k];
    }
  }

  /** Adding a fruit of rank `rank` with a fresh identity adds its rank to the world. */
  lemma AddFruit(ws: seq<Body>, nextId: nat, rank: nat)
    requires WorldOk(ws, nextId) && rank <= Top
    ensures var w := ws + [Body(nextId, Label(rank))];
            && WorldOk(w, nextId + 1)
            && Mass(w) == Mass(ws) + Pow2(rank)
            && Ranks(w) == Ranks(ws) + multiset{rank}
  {
    var nb := Body(nextId, Label(rank));
    var w := ws + [nb];
    LabelRoundTrip(rank);
    assert w[..|w| - 1] == ws;
  }

  /** The score and the world as the collision handler sees them, and the
      identity the engine gives to the next body. */
  datatype Arena = Arena(world: seq<Body>, nextId: nat, score: int)

  /** The handler for one colliding pair, as the code is written: two bodies
      with the same fruit label below the watermelon are removed, one body of
      the next rank is added, and that rank's score is won. It does not look
      at whether the two bodies are still in the world. */
  function Merge(t: Arena, a: Body, b: Body): (r: Arena)
    ensures r != t <==> a.name == b.name && ParseIndex(a.name).Some? && ParseIndex(a.name).value < Top
    ensures r != t ==> && r.nextId == t.nextId + 1 && r.score > t.score
                       && Body(t.nextId, Label(ParseIndex(a.name).value + 1)) in r.world
  {
    if a.name == b.name && ParseIndex(a.name).Some? && ParseIndex(a.name).value < Top then
      var rank := ParseIndex(a.name).value + 1;
      Arena(RemoveBody(RemoveBody(t.world, a.id), b.id) + [Body(t.nextId, Label(rank))],
            t.nextId + 1, t.score + Fruits[rank].score)
    else t
  }

  /** The whole `collisionStart` event as written: the handler for each pair in turn. */
  function CollideAsWritten(t: Arena, pairs: seq<(Body, Body)>): (r: Arena)
    ensures t.score <= r.score && t.nextId <= r.nextId <= t.nextId + |pairs|
    decreases |pairs|
  {
    if pairs == [] then t else CollideAsWritten(Merge(t, pairs[0].0, pairs[0].1), pairs[1..])
  }

  /** One pair, merging only two distinct bodies that are both still in the world. */
  function MergeGuarded(t: Arena, a: Body, b: Body): (r: Arena)
    ensures r != t <==> && a.id != b.id && a in t.world && b in t.world
                        && a.name == b.name && ParseIndex(a.name).Some? && ParseIndex(a.name).value < Top
    ensures r != t ==> r == Merge(t, a, b)
  {
    if a.id != b.id && a in t.world && b in t.world then Merge(t, a, b) else t
  }

  /** The event with every pair guarded. */
  function Collide(t: Arena, pairs: seq<(Body, Body)>): (r: Arena)
    ensures t.score <= r.score && t.nextId <= r.nextId <= t.nextId + |pairs|
    decreases |pairs|
  {
    if pairs == [] then t else Collide(MergeGuarded(t, pairs[0].0, pairs[0].1), pairs[1..])
  }

  /** A guarded pair of equal fruits below the watermelon becomes one fruit
      of the next rank, with that rank's score; any other pair (different
      labels, two watermelons, a body already gone) changes nothing. The
      world stays well formed and its mass is kept. */
  lemma MergeGuardedKeeps(t: Arena, a: Body, b: Body)
    requires WorldOk(t.world, t.nextId)
    ensures var r := MergeGuarded(t, a, b);
            && WorldOk(r.world, r.nextId)
            && Mass(r.world) == Mass(t.world)
            && (r != t <==> a.id != b.id && a in t.world && b in t.world && a.name == b.name && RankOf(a) < Top)
            && (r != t ==> && |r.world| == |t.world| - 1
                           && Ranks(r.world) == Ranks(t.world) - multiset{RankOf(a), RankOf(a)} + multiset{RankOf(a) + 1}
                           && r.score == t.score + Fruits[RankOf(a) + 1].score)
  {
    if a.id != b.id && a in t.world && b in t.world && a.name == b.name && RankOf(a) < Top {
      MergePresent(t, a, b);
    }
  }

  /** The merge of two distinct bodies of one rank below the watermelon. */
  lemma MergePresent(t: Arena, a: Body, b: Body)
    requires WorldOk(t.world, t.nextId)
    requires a.id != b.id && a in t.world && b in t.world && a.name == b.name && RankOf(a) < Top
    ensures var r := Merge(t, a, b);
            && WorldOk(r.world, r.nextId)
            && Mass(r.world) == Mass(t.world)
            && |r.world| == |t.world| - 1
            && Ranks(r.world) == Ranks(t.world) - multiset{RankOf(a), RankOf(a)} + multiset{RankOf(a) + 1}
            && r.score == t.score + Fruits[RankOf(a) + 1].score
  {
    MemberIsFruit(t.world, t.nextId, a);
    MergeResult(t, a, b);
    MergedWorld(t.world, t.nextId, a, b);
  }

  lemma MemberIsFruit(ws: seq<Body>, nextId: nat, a: Body)
    requires WorldOk(ws, nextId) && a in ws
    ensures IsFruit(a) && a.id < nextId
  {
    var k :| 0 <= k < |ws| && ws[k] == a;
  }

  /** The world after a merge: two fruits of one rank out, one of the next rank in. */
  lemma MergedWorld(ws: seq<Body>, nextId: nat, a: Body, b: Body)
    requires WorldOk(ws, nextId)
    requires a.id != b.id && a in ws && b in ws && a.name == b.name && RankOf(a) < Top
    ensures var w := RemoveBody(RemoveBody(ws, a.id), b.id) + [Body(nextId, Label(RankOf(a) + 1))];
            && WorldOk(w, nextId + 1)
            && Mass(w) == Mass(ws)
            && |w| == |ws| - 1
            && Ranks(w) == Ranks(ws) - multiset{RankOf(a), RankOf(a)} + multiset{RankOf(a) + 1}
  {
    var rank := RankOf(a) + 1;
    var w2 := RemoveBody(RemoveBody(ws, a.id), b.id);
    RemovePair(ws, a, b);
    RemoveKeepsOk(ws, nextId, a.id);
    RemoveKeepsOk(RemoveBody(ws, a.id), nextId, b.id);
    AddFruit(w2, nextId, rank);
    assert Pow2(rank) == 2 * Pow2(RankOf(a));
  }

  /** What the handler builds for two equal fruits below the watermelon. */
  lemma MergeResult(t: Arena, a: Body, b: Body)
    requires IsFruit(a) && a.name == b.name && RankOf(a) < Top
    ensures Merge(t, a, b) == Arena(RemoveBody(RemoveBody(t.world, a.id), b.id) + [Body(t.nextId, Label(RankOf(a) + 1))],
                                    t.nextId + 1, t.score + Fruits[RankOf(a) + 1].score)
  {
  }

  /** Removing two distinct bodies of one rank takes two of that rank out of the world. */
  lemma RemovePair(ws: seq<Body>, a: Body, b: Body)
    requires DistinctIds(ws)
    requires a.id != b.id && a in ws && b in ws && a.name == b.name
    ensures var w2 := RemoveBody(RemoveBody(ws, a.id), b.id);
            && |w2| == |ws| - 2
            && Mass(w2) + 2 * Pow2(RankOf(a)) == Mass(ws)
            && Ranks(w2) + multiset{RankOf(a), RankOf(a)} == Ranks(ws)
  {
    RemovePresent(ws, a);
    RemoveKeepsDistinct(ws, a.id);
    var w1 := RemoveBody(ws, a.id);
    RemoveMembers(ws, a.id);
    assert b in w1;
    RemovePresent(w1, b);
    assert RankOf(b) == RankOf(a);
  }

  /** As written, one pair's handler keeps the world well formed, even when
      its bodies are already gone: removing an absent identity changes
      nothing, and the new body has a fresh identity and a rank at most the
      watermelon's. */
  lemma MergeKeepsOk(t: Arena, a: Body, b: Body)
    requires WorldOk(t.world, t.nextId)
    ensures WorldOk(Merge(t, a, b).world, Merge(t, a, b).nextId)
  {
    var p := ParseIndex(a.name);
    if a.name == b.name && p.Some? && p.value < Top {
      ReplacePairOk(t.world, t.nextId, a.id, b.id, p.value + 1);
    }
  }

  /** Two removals and one fresh fruit of a rank of the table keep the world well formed. */
  lemma ReplacePairOk(ws: seq<Body>, nextId: nat, x: nat, y: nat, rank: nat)
    requires WorldOk(ws, nextId) && rank <= Top
    ensures WorldOk(RemoveBody(RemoveBody(ws, x), y) + [Body(nextId, Label(rank))], nextId + 1)
  {
    var w1 := RemoveBody(ws, x);
    RemoveKeepsOk(ws, nextId, x);
    RemoveKeepsOk(w1, nextId, y);
    AddFruit(RemoveBody(w1, y), nextId, rank);
  }

  /** The event as written keeps the world well formed too; only its mass is
      not kept (see `ThreeCherries`). */
  lemma {:induction false} CollideAsWrittenKeepsOk(t: Arena, pairs: seq<(Body, Body)>)
    requires WorldOk(t.world, t.nextId)
    ensures WorldOk(CollideAsWritten(t, pairs).world, CollideAsWritten(t, pairs).nextId)
    decreases |pairs|
  {
    if pairs != [] {
      MergeKeepsOk(t, pairs[0].0, pairs[0].1);
      CollideAsWrittenKeepsOk(Merge(t, pairs[0].0, pairs[0].1), pairs[1..]);
    }
  }

  /** A whole collision event with guarded pairs keeps the world well formed
      and its mass, and never lowers the score. */
  lemma {:induction false} CollideKeepsMass(t: Arena, pairs: seq<(Body, Body)>)
    requires WorldOk(t.world, t.nextId)
    ensures var r := Collide(t, pairs);
            WorldOk(r.world, r.nextId) && Mass(r.world) == Mass(t.world) && r.score >= t.score
    decreases |pairs|
  {
    if pairs != [] {
      MergeGuardedKeeps(t, pairs[0].0, pairs[0].1);
      CollideKeepsMass(MergeGuarded(t, pairs[0].0, pairs[0].1), pairs[1..]);
    }
  }

  /** Three cherries where one touches the other two in the same event: as
      written, the first pair makes a strawberry, and the second pair, whose
      first body is already gone, makes another one, so three cherries
      become two strawberries. With the guard, one strawberry and one cherry
      remain, and the mass is kept. */
  lemma ThreeCherries()
    ensures var c0, c1, c2 := Body(0, Label(0)), Body(1, Label(0)), Body(2, Label(0));
            var t := Arena([c0, c1, c2], 3, 0);
            var pairs := [(c0, c1), (c0, c2)];
            && WorldOk(t.world, t.nextId) && Mass(t.world) == 3
            && CollideAsWritten(t, pairs) == Arena([Body(3, Label(1)), Body(4, Label(1))], 5, 4)
            && Mass(CollideAsWritten(t, pairs).world) == 4
            && Collide(t, pairs) == Arena([c2, Body(3, Label(1))], 4, 2)
  {
    var c0, c1, c2 := Body(0, Label(0)), Body(1, Label(0)), Body(2, Label(0));
    var s3, s4 := Body(3, Label(1)), Body(4, Label(1));
    var t := Arena([c0, c1, c2], 3, 0);
    var t1 := Arena([c2, s3], 4, 2);
    LabelRoundTrip(0);
    LabelRoundTrip(1);
    FirstCherryMerge(c0, c1, c2, s3);
    SecondCherryMerge(c0, c2, s3, s4);
    SecondCherryGuarded(c0, c2, s3);
    assert CollideAsWritten(t, [(c0, c1), (c0, c2)]) == CollideAsWritten(t1, [(c0, c2)]);
    assert Collide(t, [(c0, c1), (c0, c2)]) == Collide(t1, [(c0, c2)]);
    CherryMass(c0, c1, c2, s3, s4);
  }

  lemma FirstCherryMerge(c0: Body, c1: Body, c2: Body, s3: Body)
    requires c0 == Body(0, Label(0)) && c1 == Body(1, Label(0)) && c2 == Body(2, Label(0)) && s3 == Body(3, Label(1))
    requires ParseIndex(Label(0)) == Some(0)
    ensures Merge(Arena([c0, c1, c2], 3, 0), c0, c1) == Arena([c2, s3], 4, 2)
    ensures MergeGuarded(Arena([c0, c1, c2], 3, 0), c0, c1) == Arena([c2, s3], 4, 2)
  {
    assert [c0, c1, c2][..2] == [c0, c1];
    assert [c0, c1][..1] == [c0];
    assert RemoveBody([c0], 0) == [];
    assert RemoveBody([c0, c1], 0) == [c1];
    assert RemoveBody([c0, c1, c2], 0) == [c1, c2];
    assert [c1, c2][..1] == [c1];
    assert RemoveBody([c1], 1) == [];
    assert RemoveBody([c1, c2], 1) == [c2];
  }

  lemma SecondCherryMerge(c0: Body, c2: Body, s3: Body, s4: Body)
    requires c0 == Body(0, Label(0)) && c2 == Body(2, Label(0)) && s3 == Body(3, Label(1)) && s4 == Body(4, Label(1))
    requires ParseIndex(Label(0)) == Some(0)
    ensures Merge(Arena([c2, s3], 4, 2), c0, c2) == Arena([s3, s4], 5, 4)
  {
    assert [c2, s3][..1] == [c2];
    assert RemoveBody([c2], 0) == [c2];
    assert RemoveBody([c2, s3], 0) == [c2, s3];
    assert RemoveBody([c2], 2) == [];
    assert RemoveBody([c2, s3], 2) == [s3];
  }

  lemma SecondCherryGuarded(c0: Body, c2: Body, s3: Body)
    requires c0 == Body(0, Label(0)) && c2 == Body(2, Label(0)) && s3 == Body(3, Label(1))
    ensures MergeGuarded(Arena([c2, s3], 4, 2), c0, c2) == Arena([c2, s3], 4, 2)
  {
    assert c0 !in [c2, s3];
  }

  lemma CherryMass(c0: Body, c1: Body, c2: Body, s3: Body, s4: Body)
    requires c0 == Body(0, Label(0)) && c1 == Body(1, Label(0)) && c2 == Body(2, Label(0))
    requires s3 == Body(3, Label(1)) && s4 == Body(4, Label(1))
    requires ParseIndex(Label(0)) == Some(0) && ParseIndex(Label(1)) == Some(1)
    ensures WorldOk([c0, c1, c2], 3) && Mass([c0, c1, c2]) == 3 && Mass([s3, s4]) == 4
  {
    assert [c0, c1, c2][..2] == [c0, c1];
    assert [c0, c1][..1] == [c0];
    assert [s3, s4][..1] == [s3];
    assert Mass([c0]) == 1;
    assert Mass([c0, c1]) == 2;
    assert Mass([s3]) == 2;
  }

  // The next fruit, the drop position and the end of the game

  /** The next fruit is drawn from the first MaxIndex tiers. */
  function MaxIndex(d: Difficulty): (n: nat)
    ensures 2 <= n <= 4
  {
    match d
    case Easy => 2
    case Normal => 3
    case Hard => 4
  }

  /** The first fruit of a game is drawn from the first three tiers. */
  const FirstChoices: nat := 3

  /** `Math.max(lo, Math.min(hi, x))`. */
  function Clamp(x: int, lo: int, hi: int): (c: int)
    requires lo <= hi
    ensures lo <= c <= hi
    ensures lo <= x <= hi ==> c == x
    ensures x < lo ==> c == lo
    ensures x > hi ==> c == hi
  {
    Max(lo, if hi < x then hi else x)
  }

  /** `handleGameOver` on the state it reads: once over, nothing happens;
      otherwise the game ends and its score is recorded. */
  function GameOverOutcome(gameOver: bool, score: int, store: State, now: string): (r: (bool, State))
    ensures r.0
    ensures gameOver ==> r.1 == store
    ensures !gameOver ==> |r.1.recentGames| > 0 && r.1.recentGames[0] == GameResult(FruitGame, score, now)
                          && r.1.highScores.Get(FruitGame) == Max(store.highScores.Get(FruitGame), score)
  {
    if gameOver then (true, store) else (true, RecordSession(store, FruitGame, score, now))
  }

  /** A second game over changes nothing. */
  lemma GameOverIdempotent(gameOver: bool, score: int, store: State, now: string, later: string)
    ensures var (over, store') := GameOverOutcome(gameOver, score, store, now);
            GameOverOutcome(over, score, store', later) == (over, store')
  {
  }

  /** The render callback is memoised once, so the `handleGameOver` it calls
      is the one from the first render, which sees a running game with score
      0. Every call it makes records a result of 0, whatever the score, and
      the already-over guard never fires. */
  lemma StaleGameOver(score: int, store: State, now: string, later: string)
    requires score > 0
    ensures var (_, once) := GameOverOutcome(false, 0, store, now);
            var (_, twice) := GameOverOutcome(false, 0, once, later);
            && once.recentGames[0] == GameResult(FruitGame, 0, now)
            && once.recentGames[0] != GameResult(FruitGame, score, now)
            && |twice.recentGames| >= 2
            && twice.recentGames[0] == GameResult(FruitGame, 0, later)
            && twice.recentGames[1] == GameResult(FruitGame, 0, now)
  {
  }

  /** The refs and state the component keeps between events. */
  class FruitGame {
    var world: seq<Body>
    var nextId: nat
    var score: int
    var nextFruit: nat
    var dropX: int
    var canDrop: bool
    var gameOver: bool
    /** True once a game has started; the engine exists exactly then. */
    var isPlaying: bool

    ghost predicate Valid()
      reads this
    {
      WorldOk(world, nextId) && nextFruit < 4 && score >= 0
    }

    /** The state before the first game. */
    constructor ()
      ensures Valid() && world == [] && score == 0 && nextFruit == 0 && dropX == GameWidth / 2
      ensures canDrop && !gameOver && !isPlaying
    {
      world := [];
      nextId := 0;
      score := 0;
      nextFruit := 0;
      dropX := GameWidth / 2;
      canDrop := true;
      gameOver := false;
      isPlaying := false;
    }

    /** `startGame`: an empty world, score 0, the game running, a first
      fruit from the first three tiers, dropping allowed. */
    method StartGame(first: nat)
      requires Valid() && first < FirstChoices
      modifies this
      ensures Valid() && world == [] && score == 0 && !gameOver && isPlaying && canDrop
      ensures nextFruit == first && nextId == old(nextId) && dropX == old(dropX)
    {
      world := [];
      score := 0;
      gameOver := false;
      isPlaying := true;
      nextFruit := first;
      canDrop := true;
    }

    /** `dropFruit`: ignored before the game starts and during the cooldown;
      otherwise the next fruit enters the world, a new next fruit is drawn
      from the first MaxIndex(d) tiers, and the cooldown begins. */
    method DropFruit(d: Difficulty, draw: nat)
      requires Valid() && draw < MaxIndex(d)
      modifies this
      ensures Valid() && score == old(score) && gameOver == old(gameOver) && isPlaying == old(isPlaying)
      ensures dropX == old(dropX)
      ensures !old(isPlaying && canDrop) ==> world == old(world) && nextId == old(nextId)
                                              && nextFruit == old(nextFruit) && canDrop == old(canDrop)
      ensures old(isPlaying && canDrop) ==>
                && world == old(world) + [Body(old(nextId), Label(old(nextFruit)))]
                && Mass(world) == old(Mass(world)) + Pow2(old(nextFruit))
                && nextId == old(nextId) + 1 && nextFruit == draw && !canDrop
    {
      if !isPlaying || !canDrop {
        return;
      }
      AddFruit(world, nextId, nextFruit);
      world := world + [Body(nextId, Label(nextFruit))];
      nextId := nextId + 1;
      nextFruit := draw;
      canDrop := false;
    }

    /** The 500 ms timer after a drop. */
    method CooldownElapsed()
      modifies this
      ensures canDrop
      ensures world == old(world) && nextId == old(nextId) && score == old(score) && nextFruit == old(nextFruit)
      ensures dropX == old(dropX) && gameOver == old(gameOver) && isPlaying == old(isPlaying)
    {
      canDrop := true;
    }

    /** `handleMove`, with `x` the pointer's offset from the canvas's left
      edge: without a canvas (before the game starts) nothing happens;
      otherwise the drop position follows the pointer but keeps the next
      fruit inside the walls. */
    method HandleMove(x: int)
      requires Valid()
      modifies this
      ensures Valid()
      ensures !old(isPlaying) ==> dropX == old(dropX)
      ensures old(isPlaying) ==>
                var r := Fruits[nextFruit].radius;
                && dropX == Clamp(x, r, GameWidth - r)
                && r <= dropX <= GameWidth - r
                && (x < r ==> dropX == r)
                && (x > GameWidth - r ==> dropX == GameWidth - r)
                && (r <= x <= GameWidth - r ==> dropX == x)
      ensures world == old(world) && nextId == old(nextId) && score == old(score) && nextFruit == old(nextFruit)
      ensures canDrop == old(canDrop) && gameOver == old(gameOver) && isPlaying == old(isPlaying)
    {
      if !isPlaying {
        return;
      }
      var r := Fruits[nextFruit].radius;
      dropX := Clamp(x, r, GameWidth - r);
    }

    /** A `collisionStart` event, with each pair merged only while both its
      bodies are in the world. */
    method HandleCollisions(pairs: seq<(Body, Body)>)
      requires Valid()
      modifies this
      ensures Valid()
      ensures Arena(world, nextId, score) == Collide(Arena(old(world), old(nextId), old(score)), pairs)
      ensures Mass(world) == old(Mass(world)) && score >= old(score)
      ensures nextFruit == old(nextFruit) && dropX == old(dropX) && canDrop == old(canDrop)
      ensures gameOver == old(gameOver) && isPlaying == old(isPlaying)
    {
      var t := Arena(world, nextId, score);
      CollideKeepsMass(t, pairs);
      var r := Collide(t, pairs);
      world, nextId, score := r.world, r.nextId, r.score;
    }

    /** A `collisionStart` event as the handler is written: every pair of
      equal fruits below the watermelon merges, whether or not its bodies are
      still in the world. */
    method HandleCollisionsAsWritten(pairs: seq<(Body, Body)>)
      requires Valid()
      modifies this
      ensures Valid()
      ensures Arena(world, nextId, score) == CollideAsWritten(Arena(old(world), old(nextId), old(score)), pairs)
      ensures score >= old(score)
      ensures nextFruit == old(nextFruit) && dropX == old(dropX) && canDrop == old(canDrop)
      ensures gameOver == old(gameOver) && isPlaying == old(isPlaying)
    {
      var t := Arena(world, nextId, score);
      CollideAsWrittenKeepsOk(t, pairs);
      var r := CollideAsWritten(t, pairs);
      world, nextId, score := r.world, r.nextId, r.score;
    }

    /** `handleGameOver`, reading the current state: the first call ends the
      game and records the score, later calls do nothing. */
    method HandleGameOver(store: State, now: string) returns (store': State)
      requires Valid()
      modifies this
      ensures Valid() && gameOver
      ensures (gameOver, store') == GameOverOutcome(old(gameOver), score, store, now)
      ensures old(gameOver) ==> store' == store
      ensures world == old(world) && nextId == old(nextId) && score == old(score) && nextFruit == old(nextFruit)
      ensures dropX == old(dropX) && canDrop == old(canDrop) && isPlaying == old(isPlaying)
    {
      if gameOver {
        store' := store;
        return;
      }
      gameOver := true;
      store' := RecordSession(store, FruitGame, score, now);
    }
  }
}
