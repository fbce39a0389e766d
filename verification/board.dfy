/** The drag-and-drop board of levels 1 and 2 (game.js:65-117): the draggable items, the
    containers they sit in, and `appendChild`, which moves a node from wherever it is to the end
    of another container. */
module Board {

  /** A draggable element with the one data attribute the game reads from it: a poster card's
      `data-impact`, a modal card's `data-modal` or a reason tag's `data-reason`. The `id` tells
      apart elements whose attribute is the same. */
  datatype Item =
    | PosterCard(id: nat, impact: string)
    | ModalCard(id: nat, modal: string)
    | ReasonTag(id: nat, reason: string)

  /** The containers of the page: the three pools the items start in and the drop targets. */
  datatype Zone =
    | PosterPool | ModalPool | ReasonPool
    | StrongDrop | MediumDrop | WeakDrop
    | MustNotBox | CannotBox | JustifyBox

  /** The containers the items start in. */
  const Pools: seq<Zone> := [PosterPool, ModalPool, ReasonPool]

  /** The containers with a drop handler. */
  const Drops: seq<Zone> := [StrongDrop, MediumDrop, WeakDrop, MustNotBox, CannotBox, JustifyBox]

  const AllZones: seq<Zone> := Pools + Drops

  /** The children of every container, in document order. */
  type Zones = map<Zone, seq<Item>>

  lemma AllZonesListed(z: Zone)
    ensures z in AllZones
  {
    match z
    case PosterPool => assert AllZones[0] == z;
    case ModalPool => assert AllZones[1] == z;
    case ReasonPool => assert AllZones[2] == z;
    case StrongDrop => assert AllZones[3] == z;
    case MediumDrop => assert AllZones[4] == z;
    case WeakDrop => assert AllZones[5] == z;
    case MustNotBox => assert AllZones[6] == z;
    case CannotBox => assert AllZones[7] == z;
    case JustifyBox => assert AllZones[8] == z;
  }

  predicate Distinct<T(==)>(s: seq<T>)
  {
    forall i, j :: 0 <= i < j < |s| ==> s[i] != s[j]
  }

  /** Every container is on the page. */
  predicate Complete(zones: Zones)
  {
    forall z: Zone :: z in zones
  }

  /** All items on the board, counted with multiplicity, over the containers `zs`. */
  function Gather(zones: Zones, zs: seq<Zone>): multiset<Item>
    requires forall z :: z in zs ==> z in zones
  {
    if zs == [] then multiset{} else multiset(zones[zs[0]]) + Gather(zones, zs[1..])
  }

  function Placed(zones: Zones): multiset<Item>
    requires Complete(zones)
  {
    Gather(zones, AllZones)
  }

  /** Replacing the children of one listed container changes the total by exactly the
      children removed and added. */
  lemma {:induction false} GatherUpdate(zones: Zones, zs: seq<Zone>, z: Zone, s: seq<Item>)
    requires forall w :: w in zs ==> w in zones
    requires Distinct(zs) && z in zs
    ensures Gather(zones[z := s], zs) + multiset(zones[z]) == Gather(zones, zs) + multiset(s)
  {
    if zs[0] == z {
      assert z !in zs[1..];
      GatherUnchanged(zones, zs[1..], z, s);
    } else {
      assert z in zs[1..] && Distinct(zs[1..]);
      GatherUpdate(zones, zs[1..], z, s);
      var head := multiset(zones[zs[0]]);
      assert zones[z := s][zs[0]] == zones[zs[0]];
      assert Gather(zones[z := s], zs) == head + Gather(zones[z := s], zs[1..]);
      assert Gather(zones, zs) == head + Gather(zones, zs[1..]);
      var lhs := Gather(zones[z := s], zs) + multiset(zones[z]);
      var rhs := Gather(zones, zs) + multiset(s);
      forall y ensures lhs[y] == rhs[y] {
        assert (Gather(zones[z := s], zs[1..]) + multiset(zones[z]))[y] == (Gather(zones, zs[1..]) + multiset(s))[y];
      }
      assert lhs == rhs;
    }
  }

  /** Containers not listed do not take part in the total. */
  lemma {:induction false} GatherUnchanged(zones: Zones, zs: seq<Zone>, z: Zone, s: seq<Item>)
    requires forall w :: w in zs ==> w in zones
    requires z !in zs
    ensures Gather(zones[z := s], zs) == Gather(zones, zs)
  {
    if zs != [] {
      GatherUnchanged(zones, zs[1..], z, s);
    }
  }

  /** Each listed container holding `x` adds its copies of `x` to the total. */
  lemma {:induction false} GatherHolds(zones: Zones, zs: seq<Zone>, z: Zone, x: Item)
    requires forall w :: w in zs ==> w in zones
    requires z in zs && x in zones[z]
    ensures Gather(zones, zs)[x] >= 1
  {
    if zs[0] != z {
      GatherHolds(zones, zs[1..], z, x);
    }
  }

  /** Two different containers holding the same item make it count twice. */
  lemma {:induction false} GatherTwice(zones: Zones, zs: seq<Zone>, z: Zone, w: Zone, x: Item)
    requires forall v :: v in zs ==> v in zones
    requires Distinct(zs) && z in zs && w in zs && z != w
    requires x in zones[z] && x in zones[w]
    ensures Gather(zones, zs)[x] >= 2
  {
    if zs[0] == z {
      GatherHolds(zones, zs[1..], w, x);
    } else if zs[0] == w {
      GatherHolds(zones, zs[1..], z, x);
    } else {
      GatherTwice(zones, zs[1..], z, w, x);
    }
  }

  /** An item on the board sits in some listed container. */
  lemma {:induction false} GatherFound(zones: Zones, zs: seq<Zone>, x: Item)
    requires forall w :: w in zs ==> w in zones
    requires x in Gather(zones, zs)
    ensures exists z :: z in zs && x in zones[z]
  {
    if x !in zones[zs[0]] {
      GatherFound(zones, zs[1..], x);
    }
  }

  lemma AllZonesDistinct()
    ensures Distinct(AllZones)
  {
  }

  /** An item counted once on the board is a child of exactly one container. */
  lemma ExactlyOneZone(zones: Zones, x: Item)
    requires Complete(zones) && Placed(zones)[x] == 1
    ensures exists z :: z in zones && x in zones[z]
    ensures forall z, w :: z in zones && w in zones && x in zones[z] && x in zones[w] ==> z == w
  {
    GatherFound(zones, AllZones, x);
    forall z, w | z in zones && w in zones && x in zones[z] && x in zones[w]
      ensures z == w
    {
      if z != w {
        AllZonesListed(z);
        AllZonesListed(w);
        AllZonesDistinct();
        GatherTwice(zones, AllZones, z, w, x);
      }
    }
  }

  /** The first of the containers `zs` that holds `x`. */
  function Find(zones: Zones, zs: seq<Zone>, x: Item): (z: Zone)
    requires forall w :: w in zs ==> w in zones
    requires exists w :: w in zs && x in zones[w]
    ensures z in zs && x in zones[z]
  {
    if x in zones[zs[0]] then zs[0]
    else
      assert exists w :: w in zs[1..] && x in zones[w] by {
        var w :| w in zs && x in zones[w];
        assert w != zs[0];
      }
      Find(zones, zs[1..], x)
  }

  /** The container `x` is a child of. */
  function ZoneOf(zones: Zones, x: Item): (z: Zone)
    requires Complete(zones) && x in Placed(zones)
    ensures z in zones && x in zones[z]
  {
    GatherFound(zones, AllZones, x);
    Find(zones, AllZones, x)
  }

  /** `s` without the first occurrence of `x`. */
  function Remove(s: seq<Item>, x: Item): (r: seq<Item>)
    requires x in s
    ensures multiset(r) + multiset{x} == multiset(s)
    ensures |r| == |s| - 1
  {
    assert s == [s[0]] + s[1..];
    if s[0] == x then s[1..] else [s[0]] + Remove(s[1..], x)
  }

  /** The position of the first occurrence of `x` in `s`. */
  function FirstIndex(s: seq<Item>, x: Item): (i: nat)
    requires x in s
    ensures i < |s| && s[i] == x && x !in s[..i]
  {
    if s[0] == x then 0
    else
      assert x in s[1..] by {
        var k :| 0 <= k < |s| && s[k] == x;
        assert s[1..][k - 1] == x;
      }
      var j := FirstIndex(s[1..], x);
      assert s[..j + 1] == [s[0]] + s[1..][..j];
      j + 1
  }

  /** Removing a child cuts out its first occurrence and leaves the other children in their
      document order. */
  lemma {:induction false} RemoveKeepsOrder(s: seq<Item>, x: Item)
    requires x in s
    ensures Remove(s, x) == s[..FirstIndex(s, x)] + s[FirstIndex(s, x) + 1..]
  {
    var i := FirstIndex(s, x);
    if i == 0 {
      assert s[..0] + s[1..] == s[1..];
    } else {
      var t := s[1..];
      assert t[i - 1] == x;
      var j := FirstIndex(t, x);
      assert Remove(s, x) == s[..j + 1] + s[j + 2..] by {
        assert Remove(s, x) == [s[0]] + Remove(t, x);
        RemoveKeepsOrder(t, x);
        CutAfterHead(s, j);
      }
      assert i == j + 1;
    }
  }

  /** Cutting position j out of the tail is cutting position j + 1 out of the whole. */
  lemma CutAfterHead(s: seq<Item>, j: nat)
    requires j + 1 < |s|
    ensures [s[0]] + (s[1..][..j] + s[1..][j + 1..]) == s[..j + 1] + s[j + 2..]
  {
    assert s[..j + 1] == [s[0]] + s[1..][..j];
    assert s[j + 2..] == s[1..][j + 1..];
  }

  /** `to.appendChild(x)`: `x` leaves its container and becomes the last child of `to` (the
      last child of the same container when it is already there). */
  function Move(zones: Zones, x: Item, to: Zone): (r: Zones)
    requires Complete(zones) && x in Placed(zones)
    ensures Complete(r) && r.Keys == zones.Keys
  {
    AllZonesListed(to);
    var from := ZoneOf(zones, x);
    var z1 := zones[from := Remove(zones[from], x)];
    z1[to := z1[to] + [x]]
  }

  /** The bookkeeping of a move: taking `x` out of one container and adding it to another
      leaves the total as it was. */
  lemma MoveBalance(g0: multiset<Item>, g1: multiset<Item>, g2: multiset<Item>,
                    target: multiset<Item>, source: multiset<Item>, rest: multiset<Item>, x: Item)
    requires g2 + target == g1 + target + multiset{x}
    requires g1 + source == g0 + rest
    requires rest + multiset{x} == source
    ensures g2 == g0
  {
    forall y ensures g2[y] == g0[y] {
      assert (g2 + target)[y] == (g1 + target + multiset{x})[y];
      assert (g1 + source)[y] == (g0 + rest)[y];
      assert (rest + multiset{x})[y] == source[y];
    }
  }

  /** Moving an item neither creates nor loses anything: the board holds the same items. */
  lemma MoveKeepsItems(zones: Zones, x: Item, to: Zone)
    requires Complete(zones) && x in Placed(zones)
    ensures Placed(Move(zones, x, to)) == Placed(zones)
  {
    var from := ZoneOf(zones, x);
    var rest := Remove(zones[from], x);
    var z1 := zones[from := rest];
    var r := Move(zones, x, to);
    assert r == z1[to := z1[to] + [x]];
    AllZonesDistinct();
    AllZonesListed(from);
    AllZonesListed(to);
    assert Gather(z1, AllZones) + multiset(zones[from]) == Placed(zones) + multiset(rest) by {
      GatherUpdate(zones, AllZones, from, rest);
    }
    assert Placed(r) + multiset(z1[to]) == Gather(z1, AllZones) + multiset(z1[to]) + multiset{x} by {
      GatherUpdate(z1, AllZones, to, z1[to] + [x]);
      assert multiset(z1[to] + [x]) == multiset(z1[to]) + multiset{x};
    }
    MoveBalance(Placed(zones), Gather(z1, AllZones), Placed(r),
                multiset(z1[to]), multiset(zones[from]), multiset(rest), x);
  }

  /** After the move `x` is the last child of `to`, and only `to` and the container `x` left
      have changed. */
  lemma MoveTarget(zones: Zones, x: Item, to: Zone)
    requires Complete(zones) && x in Placed(zones)
    ensures var r := Move(zones, x, to);
      && |r[to]| > 0 && r[to][|r[to]| - 1] == x
      && (forall z :: z in zones && z != to && z != ZoneOf(zones, x) ==> r[z] == zones[z])
      && r[ZoneOf(zones, x)] == (if ZoneOf(zones, x) == to then Remove(zones[to], x) + [x]
                                 else Remove(zones[ZoneOf(zones, x)], x))
      && (ZoneOf(zones, x) != to ==> r[to] == zones[to] + [x])
  {
  }

  /** Every item of the board counted exactly once, the board after the move too: each item
      remains a child of exactly one container. */
  lemma MoveKeepsEachItemOnce(zones: Zones, x: Item, to: Zone, y: Item)
    requires Complete(zones) && x in Placed(zones) && Placed(zones)[y] == 1
    ensures Placed(Move(zones, x, to))[y] == 1
    ensures forall z :: z in zones && y in Move(zones, x, to)[z] ==> z == (if y == x then to else ZoneOf(zones, y))
  {
    var r := Move(zones, x, to);
    var home := if y == x then to else ZoneOf(zones, y);
    assert Placed(r)[y] == 1 by { MoveKeepsItems(zones, x, to); }
    assert home in r && y in r[home] by { StaysHome(zones, x, to, y); }
    ExactlyOneZone(r, y);
  }

  /** The moved item is in its target afterwards, and any other item where it was. */
  lemma StaysHome(zones: Zones, x: Item, to: Zone, y: Item)
    requires Complete(zones) && x in Placed(zones) && y in Placed(zones)
    requires y == x || Placed(zones)[y] == 1
    ensures var home := if y == x then to else ZoneOf(zones, y);
            home in Move(zones, x, to) && y in Move(zones, x, to)[home]
  {
    MoveTarget(zones, x, to);
    if y != x {
      var from := ZoneOf(zones, x);
      var home := ZoneOf(zones, y);
      if home == from {
        assert y in Remove(zones[from], x) by {
          assert multiset(zones[from])[y] == multiset(Remove(zones[from], x))[y];
        }
      }
    }
  }

  /** The page as it loads: every item in its pool, every drop target empty. */
  function InitialZones(posters: seq<Item>, modals: seq<Item>, reasons: seq<Item>): (zones: Zones)
    ensures Complete(zones)
  {
    var zones := map[PosterPool := posters, ModalPool := modals, ReasonPool := reasons,
                     StrongDrop := [], MediumDrop := [], WeakDrop := [],
                     MustNotBox := [], CannotBox := [], JustifyBox := []];
    assert Complete(zones) by {
      forall z: Zone ensures z in zones {
        AllZonesListed(z);
      }
    }
    zones
  }

  /** The items of the initial page are exactly those of the three pools. */
  lemma PlacedInitially(posters: seq<Item>, modals: seq<Item>, reasons: seq<Item>)
    ensures Placed(InitialZones(posters, modals, reasons))
         == multiset(posters) + multiset(modals) + multiset(reasons)
  {
    var zones := InitialZones(posters, modals, reasons);
    assert Gather(zones, Drops) == multiset{} by {
      assert forall z :: z in Drops ==> zones[z] == [];
      EmptyGather(zones, Drops);
    }
    PlacedPools(zones);
  }

  /** The total over the board is that of the pools plus that of the drop targets. */
  lemma PlacedPools(zones: Zones)
    requires Complete(zones)
    ensures Placed(zones) == multiset(zones[PosterPool]) + multiset(zones[ModalPool])
                             + multiset(zones[ReasonPool]) + Gather(zones, Drops)
  {
    GatherAppend(zones, Pools, Drops);
    assert Gather(zones, Pools) == multiset(zones[PosterPool]) + multiset(zones[ModalPool])
                                   + multiset(zones[ReasonPool]) by {
      var p2: seq<Zone> := [ReasonPool];
      var p1: seq<Zone> := [ModalPool, ReasonPool];
      assert p2[1..] == [];
      assert Gather(zones, p2) == multiset(zones[ReasonPool]);
      assert p1[1..] == p2;
      assert Gather(zones, p1) == multiset(zones[ModalPool]) + multiset(zones[ReasonPool]);
      assert Pools[1..] == p1;
    }
  }

  /** The total over two lists of containers is the sum of their totals. */
  lemma {:induction false} GatherAppend(zones: Zones, a: seq<Zone>, b: seq<Zone>)
    requires Complete(zones)
    ensures Gather(zones, a + b) == Gather(zones, a) + Gather(zones, b)
  {
    if a == [] {
      assert a + b == b;
    } else {
      assert (a + b)[0] == a[0] && (a + b)[1..] == a[1..] + b;
      GatherAppend(zones, a[1..], b);
    }
  }

  lemma {:induction false} EmptyGather(zones: Zones, zs: seq<Zone>)
    requires forall z :: z in zs ==> z in zones && zones[z] == []
    ensures Gather(zones, zs) == multiset{}
  {
    if zs != [] {
      EmptyGather(zones, zs[1..]);
    }
  }

  /** Items that are pairwise different are each counted once. */
  lemma {:induction false} DistinctOnce(s: seq<Item>)
    requires Distinct(s)
    ensures forall y :: y in multiset(s) ==> multiset(s)[y] == 1
  {
    if s != [] {
      assert s == [s[0]] + s[1..];
      assert Distinct(s[1..]);
      DistinctOnce(s[1..]);
      assert s[0] !in s[1..];
    }
  }

  /** The data attributes the level checks read from a container's children: `data-impact` of
      the `.poster-card` children, `data-modal` of the `.card` children, `data-reason` of the
      `.reason` children, in document order. */
  function Impacts(s: seq<Item>): (r: seq<string>)
    ensures |r| <= |s|
    ensures (forall i :: 0 <= i < |s| ==> s[i].PosterCard?) ==> |r| == |s|
    ensures (forall i :: 0 <= i < |s| ==> s[i].PosterCard?) ==> forall i :: 0 <= i < |s| ==> r[i] == s[i].impact
  {
    if s == [] then []
    else (if s[0].PosterCard? then [s[0].impact] else []) + Impacts(s[1..])
  }

  function Modals(s: seq<Item>): (r: seq<string>)
    ensures |r| <= |s|
    ensures (forall i :: 0 <= i < |s| ==> s[i].ModalCard?) ==> |r| == |s|
    ensures (forall i :: 0 <= i < |s| ==> s[i].ModalCard?) ==> forall i :: 0 <= i < |s| ==> r[i] == s[i].modal
  {
    if s == [] then []
    else (if s[0].ModalCard? then [s[0].modal] else []) + Modals(s[1..])
  }

  function Reasons(s: seq<Item>): (r: seq<string>)
    ensures |r| <= |s|
    ensures (forall i :: 0 <= i < |s| ==> s[i].ReasonTag?) ==> |r| == |s|
    ensures (forall i :: 0 <= i < |s| ==> s[i].ReasonTag?) ==> forall i :: 0 <= i < |s| ==> r[i] == s[i].reason
  {
    if s == [] then []
    else (if s[0].ReasonTag? then [s[0].reason] else []) + Reasons(s[1..])
  }

  /** Some child of the container is a poster card with this `data-impact` (a modal card with
      this `data-modal`, a reason tag with this `data-reason`). */
  predicate CarriesImpact(s: seq<Item>, v: string)
  {
    exists i :: 0 <= i < |s| && s[i].PosterCard? && s[i].impact == v
  }

  predicate CarriesModal(s: seq<Item>, v: string)
  {
    exists i :: 0 <= i < |s| && s[i].ModalCard? && s[i].modal == v
  }

  predicate CarriesReason(s: seq<Item>, v: string)
  {
    exists i :: 0 <= i < |s| && s[i].ReasonTag? && s[i].reason == v
  }

  /** A value is read off a container exactly when some child of the selected kind carries it. */
  lemma {:induction false} ImpactsMembers(s: seq<Item>)
    ensures forall v :: v in Impacts(s) <==> CarriesImpact(s, v)
  {
    if s != [] {
      ImpactsMembers(s[1..]);
      assert forall i :: 1 <= i < |s| ==> s[i] == s[1..][i - 1];
      forall v | CarriesImpact(s[1..], v) ensures CarriesImpact(s, v) {
        var i :| 0 <= i < |s[1..]| && s[1..][i].PosterCard? && s[1..][i].impact == v;
        assert s[i + 1] == s[1..][i];
      }
    }
  }

  lemma {:induction false} ModalsMembers(s: seq<Item>)
    ensures forall v :: v in Modals(s) <==> CarriesModal(s, v)
  {
    if s != [] {
      ModalsMembers(s[1..]);
      assert forall i :: 1 <= i < |s| ==> s[i] == s[1..][i - 1];
      forall v | CarriesModal(s[1..], v) ensures CarriesModal(s, v) {
        var i :| 0 <= i < |s[1..]| && s[1..][i].ModalCard? && s[1..][i].modal == v;
        assert s[i + 1] == s[1..][i];
      }
    }
  }

  lemma {:induction false} ReasonsMembers(s: seq<Item>)
    ensures forall v :: v in Reasons(s) <==> CarriesReason(s, v)
  {
    if s != [] {
      ReasonsMembers(s[1..]);
      assert forall i :: 1 <= i < |s| ==> s[i] == s[1..][i - 1];
      forall v | CarriesReason(s[1..], v) ensures CarriesReason(s, v) {
        var i :| 0 <= i < |s[1..]| && s[1..][i].ReasonTag? && s[1..][i].reason == v;
        assert s[i + 1] == s[1..][i];
      }
    }
  }
}
