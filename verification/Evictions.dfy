/** How far a capped directory can overrun while several stores list, rank and delete at once: the bookkeeping. */
module Evictions {
  import opened Listings

  /** A store whose file is in place, as the `at`-th of all, and which has not ranked the entries yet. One that has
      listed them knows their names, how many files had been placed by then, and how many were left behind. */
  datatype Credit =
    | InPlace(at: nat)
    | Listed(at: nat, names: set<string>, seen: nat, mark: nat)

  /** The entries nobody is about to delete, the stores with a credit, how many files were ever placed, how many
      entries evictions left behind, and how many of those a later ranking has made up for. */
  datatype Account =
    Account(unmarked: set<string>, credits: map<nat, Credit>, placed: nat, leftovers: nat, forgiven: nat)

  /** The stores whose file was placed as the `seen`-th or later. */
  function Newer(a: Account, seen: nat): set<nat> {
    set id | id in a.credits && a.credits[id].at >= seen
  }

  /** What was left behind and not made up for, counted from `mark` at the earliest. */
  function Due(a: Account, mark: nat): int {
    a.leftovers - if mark > a.forgiven then mark else a.forgiven
  }

  /** What a listing promises: since then some ranking made room, or every entry it does not name is newer. */
  predicate ListingHolds(cap: nat, a: Account, x: Credit)
    requires x.Listed?
  {
    && x.at < x.seen <= a.placed && x.mark <= a.leftovers
    && (|a.unmarked| <= cap + |Newer(a, x.seen)| + Due(a, x.mark)
        || |a.unmarked - x.names| <= |Newer(a, x.seen)| + Due(a, x.mark))
  }

  /** Of two listings one is the later in every respect. */
  predicate Ordered(x: Credit, y: Credit) {
    x.Listed? && y.Listed? ==> (x.seen <= y.seen && x.mark <= y.mark) || (y.seen <= x.seen && y.mark <= x.mark)
  }

  ghost predicate Sound(cap: nat, a: Account) {
    && a.forgiven <= a.leftovers
    && |a.unmarked| <= cap + |a.credits.Keys| + a.leftovers - a.forgiven
    && (forall id :: id in a.credits ==> a.credits[id].at < a.placed)
    && (forall id :: id in a.credits && a.credits[id].Listed? ==> ListingHolds(cap, a, a.credits[id]))
    && forall id, other :: id in a.credits && other in a.credits ==> Ordered(a.credits[id], a.credits[other])
  }

  // ----- What the steps of a run do to the account -----

  /** Entries disappear, or somebody marks them. */
  lemma FewerStaysSound(cap: nat, a: Account, unmarked: set<string>)
    requires Sound(cap, a) && unmarked <= a.unmarked
    ensures Sound(cap, a.(unmarked := unmarked))
  {
    var b := a.(unmarked := unmarked);
    SubsetSize(unmarked, a.unmarked);
    forall id | id in b.credits && b.credits[id].Listed?
      ensures ListingHolds(cap, b, b.credits[id])
    {
      assert ListingHolds(cap, a, a.credits[id]);
      assert Newer(b, b.credits[id].seen) == Newer(a, b.credits[id].seen);
      SubsetSize(unmarked - b.credits[id].names, a.unmarked - b.credits[id].names);
    }
  }

  lemma OneMore<T>(a: set<T>, b: set<T>, x: T)
    requires a <= b + {x}
    ensures |a| <= |b| + 1
  {
    SubsetSize(a, b + {x});
  }

  /** A store puts its file in place. */
  lemma PlacedStaysSound(cap: nat, a: Account, b: Account, id: nat, name: string)
    requires Sound(cap, a) && id !in a.credits && b.unmarked <= a.unmarked + {name}
    requires b == a.(unmarked := b.unmarked, credits := a.credits[id := InPlace(a.placed)], placed := a.placed + 1)
    ensures Sound(cap, b)
  {
    OneMore(b.unmarked, a.unmarked, name);
    assert b.credits.Keys == a.credits.Keys + {id};
    PlacedKeepsListings(cap, a, b, id, name);
  }

  lemma PlacedKeepsListings(cap: nat, a: Account, b: Account, id: nat, name: string)
    requires Sound(cap, a) && id !in a.credits && b.unmarked <= a.unmarked + {name}
    requires b == a.(unmarked := b.unmarked, credits := a.credits[id := InPlace(a.placed)], placed := a.placed + 1)
    ensures forall other :: other in b.credits && b.credits[other].Listed? ==> ListingHolds(cap, b, b.credits[other])
  {
    forall other | other in b.credits && b.credits[other].Listed?
      ensures ListingHolds(cap, b, b.credits[other])
    {
      PlacedKeepsListing(cap, a, id, b.unmarked, name, a.credits[other]);
    }
  }

  lemma PlacedKeepsListing(cap: nat, a: Account, id: nat, unmarked: set<string>, name: string, x: Credit)
    requires id !in a.credits && unmarked <= a.unmarked + {name} && x.Listed? && ListingHolds(cap, a, x)
    ensures ListingHolds(cap, a.(unmarked := unmarked, credits := a.credits[id := InPlace(a.placed)],
                                 placed := a.placed + 1), x)
  {
    var b := a.(unmarked := unmarked, credits := a.credits[id := InPlace(a.placed)], placed := a.placed + 1);
    OneMore(unmarked, a.unmarked, name);
    assert Newer(b, x.seen) == Newer(a, x.seen) + {id};
    OneMore(unmarked - x.names, a.unmarked - x.names, name);
  }

  /** A store in place lists the entries. */
  lemma ListedStaysSound(cap: nat, a: Account, b: Account, id: nat, names: set<string>)
    requires Sound(cap, a) && id in a.credits && a.credits[id].InPlace? && a.unmarked <= names
    requires b == a.(credits := a.credits[id := Listed(a.credits[id].at, names, a.placed, a.leftovers)])
    ensures Sound(cap, b)
  {
    assert b.credits.Keys == a.credits.Keys;
    ListingsHold(cap, a, b, id);
    LatestIsOrdered(cap, a, b, id);
  }

  lemma ListingsHold(cap: nat, a: Account, b: Account, id: nat)
    requires Sound(cap, a) && id in a.credits && id in b.credits
    requires var x := b.credits[id];
             && x.Listed? && a.unmarked <= x.names && x.at == a.credits[id].at && x.seen == a.placed
             && x.mark == a.leftovers && b == a.(credits := a.credits[id := x])
    ensures forall i :: i in b.credits && b.credits[i].Listed? ==> ListingHolds(cap, b, b.credits[i])
  {
    forall i | i in b.credits && b.credits[i].Listed?
      ensures ListingHolds(cap, b, b.credits[i])
    {
      if i == id {
        NewListingHolds(cap, b, b.credits[id]);
      } else {
        ListedKeepsListing(cap, a, id, b.credits[id].names, a.credits[i]);
      }
    }
  }

  lemma LatestIsOrdered(cap: nat, a: Account, b: Account, id: nat)
    requires Sound(cap, a) && id in b.credits && b.credits == a.credits[id := b.credits[id]]
    requires b.credits[id].Listed? && b.credits[id].seen == a.placed && b.credits[id].mark == a.leftovers
    ensures forall i, j :: i in b.credits && j in b.credits ==> Ordered(b.credits[i], b.credits[j])
  {
    var x := b.credits[id];
    forall i | i in a.credits
      ensures Ordered(a.credits[i], x) && Ordered(x, a.credits[i])
    {
      assert a.credits[i].Listed? ==> ListingHolds(cap, a, a.credits[i]);
    }
  }

  lemma NewListingHolds(cap: nat, b: Account, x: Credit)
    requires x.Listed? && x.at < x.seen == b.placed && x.mark == b.leftovers && b.unmarked <= x.names
    requires b.forgiven <= b.leftovers
    ensures ListingHolds(cap, b, x)
  {
    assert b.unmarked - x.names == {};
  }

  lemma ListedKeepsListing(cap: nat, a: Account, id: nat, names: set<string>, x: Credit)
    requires id in a.credits && x.Listed? && ListingHolds(cap, a, x)
    ensures ListingHolds(cap, a.(credits := a.credits[id := Listed(a.credits[id].at, names, a.placed, a.leftovers)]), x)
  {
    var b := a.(credits := a.credits[id := Listed(a.credits[id].at, names, a.placed, a.leftovers)]);
    assert Newer(b, x.seen) == Newer(a, x.seen);
  }

  /** A store with a credit ends without ranking; its entry is left behind. */
  lemma GivenUpStaysSound(cap: nat, a: Account, id: nat)
    requires Sound(cap, a) && id in a.credits
    ensures Sound(cap, a.(credits := a.credits - {id}, leftovers := a.leftovers + 1))
  {
    var b := a.(credits := a.credits - {id}, leftovers := a.leftovers + 1);
    assert a.credits.Keys == b.credits.Keys + {id};
    forall other | other in b.credits && b.credits[other].Listed?
      ensures ListingHolds(cap, b, b.credits[other])
    {
      GivenUpKeepsListing(cap, a, id, a.credits[other]);
    }
  }

  lemma GivenUpKeepsListing(cap: nat, a: Account, id: nat, x: Credit)
    requires x.Listed? && ListingHolds(cap, a, x)
    ensures ListingHolds(cap, a.(credits := a.credits - {id}, leftovers := a.leftovers + 1), x)
  {
    OneMore(Newer(a, x.seen), Newer(a.(credits := a.credits - {id}), x.seen), id);
  }

  /** A deletion that was due fails, and the entry is left behind. */
  lemma FailedStaysSound(cap: nat, a: Account, unmarked: set<string>, name: string)
    requires Sound(cap, a) && unmarked <= a.unmarked + {name}
    ensures Sound(cap, a.(unmarked := unmarked, leftovers := a.leftovers + 1))
  {
    var b := a.(unmarked := unmarked, leftovers := a.leftovers + 1);
    OneMore(unmarked, a.unmarked, name);
    forall other | other in b.credits && b.credits[other].Listed?
      ensures ListingHolds(cap, b, b.credits[other])
    {
      var x := b.credits[other];
      assert ListingHolds(cap, a, x);
      assert Newer(b, x.seen) == Newer(a, x.seen);
      OneMore(unmarked - x.names, a.unmarked - x.names, name);
    }
  }

  lemma ThatMany<T>(a: set<T>, b: set<T>, more: set<T>)
    requires a <= b + more
    ensures |a| <= |b| + |more|
  {
    SubsetSize(a, b + more);
    assert b + more == b + (more - b);
    SubsetSize(more - b, more);
  }

  /** Some stores end: the entries only they had marked, `orphans`, and their own are left behind. */
  lemma CrashStaysSound(cap: nat, a: Account, b: Account, ids: set<nat>, orphans: set<string>)
    requires Sound(cap, a) && b.unmarked <= a.unmarked + orphans
    requires b == Account(b.unmarked, a.credits - ids, a.placed,
                          a.leftovers + |a.credits.Keys * ids| + |orphans|, a.forgiven)
    ensures Sound(cap, b)
  {
    ThatMany(b.unmarked, a.unmarked, orphans);
    ThatMany(a.credits.Keys, b.credits.Keys, a.credits.Keys * ids);
    forall id | id in b.credits && b.credits[id].Listed?
      ensures ListingHolds(cap, b, b.credits[id])
    {
      CrashKeepsListing(cap, a, b, ids, orphans, a.credits[id]);
    }
  }

  lemma CrashKeepsListing(cap: nat, a: Account, b: Account, ids: set<nat>, orphans: set<string>, x: Credit)
    requires x.Listed? && ListingHolds(cap, a, x) && b.unmarked <= a.unmarked + orphans
    requires b == Account(b.unmarked, a.credits - ids, a.placed,
                          a.leftovers + |a.credits.Keys * ids| + |orphans|, a.forgiven)
    ensures ListingHolds(cap, b, x)
  {
    ThatMany(b.unmarked, a.unmarked, orphans);
    ThatMany(b.unmarked - x.names, a.unmarked - x.names, orphans);
    ThatMany(Newer(a, x.seen), Newer(b, x.seen), a.credits.Keys * ids);
  }

  /** A listed store ranks what it listed and marks all but the cap: whatever happened since the listing, this makes
      up for its own credit and for everything left behind before it. */
  lemma RankedStaysSound(cap: nat, a: Account, id: nat, unmarked: set<string>)
    requires Sound(cap, a) && id in a.credits && a.credits[id].Listed?
    requires unmarked <= a.unmarked && |unmarked * a.credits[id].names| <= cap
    ensures var mark := a.credits[id].mark;
            Sound(cap, a.(unmarked := unmarked, credits := a.credits - {id},
                          forgiven := if mark > a.forgiven then mark else a.forgiven))
  {
    var x := a.credits[id];
    var b := a.(unmarked := unmarked, credits := a.credits - {id},
                forgiven := if x.mark > a.forgiven then x.mark else a.forgiven);
    RankedMakesRoom(cap, a, id, unmarked);
    assert Newer(b, x.seen) == Newer(a, x.seen);
    SubsetSize(Newer(a, x.seen), b.credits.Keys);
    forall other | other in b.credits && b.credits[other].Listed?
      ensures ListingHolds(cap, b, b.credits[other])
    {
      RankedKeepsListing(cap, a, id, unmarked, other);
    }
  }

  /** After the ranking the entries are within the cap, the newer stores and what was left behind since. */
  lemma RankedMakesRoom(cap: nat, a: Account, id: nat, unmarked: set<string>)
    requires Sound(cap, a) && id in a.credits && a.credits[id].Listed?
    requires unmarked <= a.unmarked && |unmarked * a.credits[id].names| <= cap
    ensures var x := a.credits[id]; |unmarked| <= cap + |Newer(a, x.seen)| + Due(a, x.mark)
  {
    var x := a.credits[id];
    assert ListingHolds(cap, a, x);
    SubsetSize(unmarked, a.unmarked);
    assert unmarked == unmarked * x.names + (unmarked - x.names);
    SubsetSize(unmarked - x.names, a.unmarked - x.names);
  }

  lemma RankedKeepsListing(cap: nat, a: Account, id: nat, unmarked: set<string>, other: nat)
    requires Sound(cap, a) && id in a.credits && a.credits[id].Listed? && other in a.credits && other != id
    requires a.credits[other].Listed? && unmarked <= a.unmarked && |unmarked * a.credits[id].names| <= cap
    ensures var mark := a.credits[id].mark;
            ListingHolds(cap, a.(unmarked := unmarked, credits := a.credits - {id},
                                 forgiven := if mark > a.forgiven then mark else a.forgiven), a.credits[other])
  {
    var x, y := a.credits[id], a.credits[other];
    var b := a.(unmarked := unmarked, credits := a.credits - {id},
                forgiven := if x.mark > a.forgiven then x.mark else a.forgiven);
    assert ListingHolds(cap, a, y) && ListingHolds(cap, a, x);
    assert Ordered(x, y);
    if y.seen <= x.seen && y.mark <= x.mark {
      RankedMakesRoom(cap, a, id, unmarked);
      EarlierNewer(a, id, y.seen);
    } else {
      NewerWithout(a, id, y.seen);
      SubsetSize(unmarked, a.unmarked);
      SubsetSize(unmarked - y.names, a.unmarked - y.names);
    }
  }

  /** A store is not newer than its own listing. */
  lemma EarlierNewer(a: Account, id: nat, seen: nat)
    requires id in a.credits && a.credits[id].Listed? && a.credits[id].at < a.credits[id].seen
    requires seen <= a.credits[id].seen
    ensures |Newer(a, a.credits[id].seen)| <= |Newer(a.(credits := a.credits - {id}), seen)|
  {
    SubsetSize(Newer(a, a.credits[id].seen), Newer(a.(credits := a.credits - {id}), seen));
  }

  lemma NewerWithout(a: Account, id: nat, seen: nat)
    requires id in a.credits && a.credits[id].at < seen
    ensures Newer(a.(credits := a.credits - {id}), seen) == Newer(a, seen)
  {
  }
}
