/** Exactly when the index and the reference of the memory tracker agree, call by call and over whole runs. */
module MemoryAgreement {
  import opened Prelude
  import opened Bytes
  import opened MemoryTracker

  /** No range starts below address 0. */
  ghost predicate Sized(m: Index) {
    forall k | k in m :: m[k].size <= k
  }

  /** An address that lies in some range has an owner: no later start hides it. Disjoint ranges are a special case. */
  ghost predicate Visible(m: Index) {
    forall k: nat, a: nat :: Covers(m, k, a) ==> Owner(m, a).Some?
  }

  /** The range that ends at p holds the first line of the new one and is found by the index. */
  ghost predicate HoldsFirst(m: Index, lower: nat, p: nat) {
    IsUpperBound(m, lower, p) && Reaches(m, p, lower)
  }

  /** The range that ends at k ends strictly inside the new one, and is not the one that makes room. */
  ghost predicate Inner(m: Index, lower: nat, upper: nat, k: nat) {
    k in m && lower < k < upper && !HoldsFirst(m, lower, k)
  }

  /** It does no harm: it has the same site and reaches down to the first line or to another such range. */
  ghost predicate Harmless(m: Index, lower: nat, upper: nat, site: Site, k: nat)
    requires k in m
  {
    m[k].site == site && (Reaches(m, k, lower) || exists j: nat ::
                            Inner(m, lower, upper, j) && j < k && Reaches(m, k, j))
  }

  /** What is left of the range that ends at p may replace the range that ends at the first line. */
  ghost predicate Replaces(m: Index, lower: nat, p: nat)
    requires p in m
  {
    lower in m && p - m[p].size < lower ==>
      m[lower].site == m[p].site
        && (p - m[p].size <= lower - m[lower].size || exists j :: j in m && j < lower && p - m[p].size <= j)
  }

  /** The allocations after which the index still agrees with the reference. */
  ghost predicate Kept(m: Index, lower: nat, upper: nat, site: Site) {
    if lower < upper then
      && (forall k | Inner(m, lower, upper, k) :: Harmless(m, lower, upper, site, k))
      && (forall p | HoldsFirst(m, lower, p) :: Replaces(m, lower, p))
    else Orderly(m, lower, upper)
  }

  // ---- Owners

  lemma NoOwner(m: Index, a: nat)
    requires NoUpperBound(m, a)
    ensures Owner(m, a) == None
  {
    assert forall k :: !IsUpperBound(m, a, k);
  }

  /** The index looks for the least key above an address, if there is one. */
  lemma LookUp(m: Index, a: nat) returns (found: bool, k: nat)
    ensures found ==> IsUpperBound(m, a, k) && Owner(m, a) == if Reaches(m, k, a) then Some(m[k].site) else None
    ensures !found ==> NoUpperBound(m, a) && Owner(m, a) == None
  {
    found, k := exists j :: j in m.Keys && a < j, 0;
    if found {
      k := LeastKey(m.Keys, a);
      OnlyUpperBound(m, a, k);
    } else {
      NoOwner(m, a);
    }
  }

  lemma OwnerCoversIt(m: Index, a: nat)
    requires Owner(m, a).Some?
    ensures exists k :: Covers(m, k, a)
  {
    var found, k := LookUp(m, a);
    assert Covers(m, k, a);
  }

  /** The same key found in both, with the same site and reach. */
  lemma SameFound(m: Index, m': Index, a: nat, k: nat, k': nat)
    requires IsUpperBound(m, a, k) && IsUpperBound(m', a, k')
    requires m[k].site == m'[k'].site && Reaches(m, k, a) == Reaches(m', k', a)
    ensures Owner(m, a) == Owner(m', a)
  {
    OnlyUpperBound(m, a, k);
    OnlyUpperBound(m', a, k');
  }

  // ---- The index after an allocation

  /** The index after an allocation whose first line is held by the range that ends at p. */
  lemma InsertHolds(m: Index, lower: nat, upper: nat, site: Site, p: nat)
    requires lower <= upper && HoldsFirst(m, lower, p)
    ensures Insert(m, lower, upper, site) == Split(m, p, lower, upper)[upper := Allocation(upper - lower, site)]
  {
    ClearedAt(m, lower, upper, true, p);
  }

  lemma InsertPlain(m: Index, lower: nat, upper: nat, site: Site)
    requires lower <= upper && forall p :: !HoldsFirst(m, lower, p)
    ensures Insert(m, lower, upper, site) == m[upper := Allocation(upper - lower, site)]
  {
    var found, k := LookUp(m, lower);
    assert !found || !HoldsFirst(m, lower, k);
    ClearedAt(m, lower, upper, found, k);
  }

  lemma OneHolds(m: Index, lower: nat, p: nat, q: nat)
    requires HoldsFirst(m, lower, p) && HoldsFirst(m, lower, q)
    ensures p == q
  {
    assert p in m && q in m;
  }

  /** An entry of the new index: the new one, a part of the range that made room, or one that stays. */
  lemma EntryFrom(m: Index, lower: nat, upper: nat, site: Site, k: nat)
    requires lower <= upper && k in Insert(m, lower, upper, site)
    ensures var m' := Insert(m, lower, upper, site);
            || (k == upper && m'[k] == Allocation(upper - lower, site))
            || (k in m && m'[k] == m[k] && !HoldsFirst(m, lower, k))
            || (exists p: nat :: HoldsFirst(m, lower, p) && m'[k].site == m[p].site
                            && ((k == lower && p - m[p].size < lower && m'[k].size == lower - (p - m[p].size))
                                || (k == p > upper && m'[k].size == p - upper)))
  {
    if p :| HoldsFirst(m, lower, p) {
      InsertHolds(m, lower, upper, site, p);
      forall q | HoldsFirst(m, lower, q)
        ensures q == p
      {
        OneHolds(m, lower, p, q);
      }
    } else {
      InsertPlain(m, lower, upper, site);
    }
  }

  /** Outside the new range nothing is covered that was not before. */
  lemma CoveredBefore(m: Index, lower: nat, upper: nat, site: Site, k: nat, a: nat)
    requires lower <= upper && Covers(Insert(m, lower, upper, site), k, a) && !(lower <= a < upper)
    ensures exists j :: Covers(m, j, a)
  {
    EntryFrom(m, lower, upper, site, k);
    if k in m && Covers(m, k, a) {
    } else {
      var p: nat :| HoldsFirst(m, lower, p) && p - m[p].size <= a < p;
      assert Covers(m, p, a);
    }
  }

  /** From the end of the new range on every address keeps its owner. */
  lemma AboveKept(m: Index, lower: nat, upper: nat, site: Site, a: nat)
    requires lower <= upper <= a
    ensures Owner(Insert(m, lower, upper, site), a) == Owner(m, a)
  {
    var m' := Insert(m, lower, upper, site);
    forall k: nat | a < k
      ensures k in m' <==> k in m
      ensures k in m ==> m'[k].site == m[k].site && Reaches(m', k, a) == Reaches(m, k, a)
    {
      AboveEntry(m, lower, upper, site, k, a);
    }
    var found, k := LookUp(m, a);
    if found {
      assert IsUpperBound(m', a, k);
      SameFound(m, m', a, k, k);
    } else {
      assert NoUpperBound(m', a);
      NoOwner(m', a);
    }
  }

  lemma AboveEntry(m: Index, lower: nat, upper: nat, site: Site, k: nat, a: nat)
    requires lower <= upper <= a < k
    ensures var m' := Insert(m, lower, upper, site);
            (k in m' <==> k in m) && (k in m ==> m'[k].site == m[k].site && Reaches(m', k, a) == Reaches(m, k, a))
  {
    if p: nat :| HoldsFirst(m, lower, p) {
      InsertHolds(m, lower, upper, site, p);
    } else {
      InsertPlain(m, lower, upper, site);
    }
  }

  /** Below the first line keys stay, and what is left of the range that made room is added. */
  lemma BelowEntry(m: Index, lower: nat, upper: nat, site: Site, k: nat)
    requires lower <= upper && k < lower
    ensures var m' := Insert(m, lower, upper, site); (k in m' <==> k in m) && (k in m ==> m'[k] == m[k])
  {
    if p: nat :| HoldsFirst(m, lower, p) {
      InsertHolds(m, lower, upper, site, p);
    } else {
      InsertPlain(m, lower, upper, site);
    }
  }

  /** No key lies between an address below the first line and that line. */
  ghost predicate LastGap(m: Index, lower: nat, a: nat) {
    a < lower && forall k | k in m && a < k :: lower <= k
  }

  lemma BelowGapKept(m: Index, lower: nat, upper: nat, site: Site, a: nat)
    requires lower <= upper && a < lower && !LastGap(m, lower, a)
    ensures Owner(Insert(m, lower, upper, site), a) == Owner(m, a)
  {
    var m' := Insert(m, lower, upper, site);
    var found, k := LookUp(m, a);
    assert found && k < lower;
    forall j: nat | j in m' && a < j
      ensures k <= j
    {
      if j < lower {
        BelowEntry(m, lower, upper, site, j);
      }
    }
    BelowEntry(m, lower, upper, site, k);
    SameFound(m, m', a, k, k);
  }

  /** An address outside that had no owner has none afterwards. */
  lemma StaysUnowned(m: Index, lower: nat, upper: nat, site: Site, a: nat)
    requires lower <= upper && Visible(m) && !(lower <= a < upper) && Owner(m, a) == None
    ensures Owner(Insert(m, lower, upper, site), a) == None
  {
    var m' := Insert(m, lower, upper, site);
    if Owner(m', a).Some? {
      OwnerCoversIt(m', a);
      var k: nat :| Covers(m', k, a);
      CoveredBefore(m, lower, upper, site, k, a);
    }
  }

  /** Below the first line, where nothing is left of a range that made room. */
  lemma NothingLeftKept(m: Index, lower: nat, upper: nat, site: Site, a: nat)
    requires lower < upper && Visible(m) && LastGap(m, lower, a)
    requires forall p: nat | HoldsFirst(m, lower, p) :: p - m[p].size >= lower
    ensures Owner(Insert(m, lower, upper, site), a) == Owner(m, a)
  {
    var m' := Insert(m, lower, upper, site);
    var found, k := LookUp(m, a);
    if lower in m {
      assert IsUpperBound(m, a, lower);
      LineEntryStays(m, lower, upper, site);
      GapKeyIs(m, lower, upper, site, a);
      SameFound(m, m', a, lower, lower);
    } else {
      if found {
        assert IsUpperBound(m, lower, k);
        assert !Reaches(m, k, a) by {
          if Reaches(m, k, a) {
            assert HoldsFirst(m, lower, k);
          }
        }
      }
      StaysUnowned(m, lower, upper, site, a);
    }
  }

  lemma LineEntryStays(m: Index, lower: nat, upper: nat, site: Site)
    requires lower < upper && lower in m && forall p: nat | HoldsFirst(m, lower, p) :: p - m[p].size >= lower
    ensures var m' := Insert(m, lower, upper, site); lower in m' && m'[lower] == m[lower]
  {
    if p: nat :| HoldsFirst(m, lower, p) {
      InsertHolds(m, lower, upper, site, p);
    } else {
      InsertPlain(m, lower, upper, site);
    }
  }

  lemma GapKeyIs(m: Index, lower: nat, upper: nat, site: Site, a: nat)
    requires lower <= upper && LastGap(m, lower, a) && lower in Insert(m, lower, upper, site)
    ensures IsUpperBound(Insert(m, lower, upper, site), a, lower)
  {
    var m' := Insert(m, lower, upper, site);
    forall j: nat | j in m' && a < j
      ensures lower <= j
    {
      if j < lower {
        BelowEntry(m, lower, upper, site, j);
      }
    }
  }

  /** Below the first line, what is left of the range that ends at p decides. */
  lemma LeftOwns(m: Index, lower: nat, upper: nat, site: Site, p: nat, a: nat)
    requires lower < upper && LastGap(m, lower, a) && HoldsFirst(m, lower, p) && p - m[p].size < lower
    ensures Owner(Insert(m, lower, upper, site), a) == if p - m[p].size <= a then Some(m[p].site) else None
    ensures lower !in m ==> Owner(m, a) == if p - m[p].size <= a then Some(m[p].site) else None
    ensures lower in m ==> Owner(m, a) == if lower - m[lower].size <= a then Some(m[lower].site) else None
  {
    InsertHolds(m, lower, upper, site, p);
    var m' := Insert(m, lower, upper, site);
    GapKeyIs(m, lower, upper, site, a);
    OnlyUpperBound(m', a, lower);
    if lower in m {
      assert IsUpperBound(m, a, lower);
      OnlyUpperBound(m, a, lower);
    } else {
      assert IsUpperBound(m, a, p);
      OnlyUpperBound(m, a, p);
    }
  }

  /** Below the first line all owners are kept exactly if what is left there may replace what was. */
  lemma BelowKeptExactlyWhen(m: Index, lower: nat, upper: nat, site: Site, p: nat)
    requires lower < upper && Sized(m) && Visible(m) && HoldsFirst(m, lower, p) && p - m[p].size < lower
    ensures (forall a: nat | a < lower :: Owner(Insert(m, lower, upper, site), a) == Owner(m, a)) <==>
            Replaces(m, lower, p)
  {
    var m' := Insert(m, lower, upper, site);
    if Replaces(m, lower, p) {
      forall a: nat | a < lower
        ensures Owner(m', a) == Owner(m, a)
      {
        ReplacedKept(m, lower, upper, site, p, a);
      }
    } else if forall a: nat | a < lower :: Owner(m', a) == Owner(m, a) {
      NotReplaced(m, lower, upper, site, p);
    }
  }

  lemma ReplacedKept(m: Index, lower: nat, upper: nat, site: Site, p: nat, a: nat)
    requires lower < upper && Visible(m) && HoldsFirst(m, lower, p) && p - m[p].size < lower && Replaces(m, lower, p)
             && a < lower
    ensures Owner(Insert(m, lower, upper, site), a) == Owner(m, a)
  {
    if LastGap(m, lower, a) {
      LeftOwns(m, lower, upper, site, p, a);
      if p - m[p].size <= a {
        assert Covers(m, p, a);
      }
    } else {
      BelowGapKept(m, lower, upper, site, a);
    }
  }

  /** The greatest key below a bound. */
  lemma {:induction false} GreatestKey(keys: set<nat>, bound: nat) returns (found: bool, k: nat)
    ensures found ==> k in keys && k < bound && forall j | j in keys && j < bound :: j <= k
    ensures !found ==> forall j | j in keys :: j >= bound
    decreases keys
  {
    found, k := false, 0;
    if j :| j in keys && j < bound {
      var rest := keys - {j};
      found, k := GreatestKey(rest, bound);
      k := if found && j < k then k else j;
      found := true;
      forall i | i in keys && i < bound
        ensures i <= k
      {
        assert i == j || i in rest;
      }
    }
  }

  lemma NotReplaced(m: Index, lower: nat, upper: nat, site: Site, p: nat)
    requires lower < upper && Sized(m) && Visible(m) && HoldsFirst(m, lower, p) && p - m[p].size < lower
             && !Replaces(m, lower, p)
    ensures exists a: nat :: a < lower && Owner(Insert(m, lower, upper, site), a) != Owner(m, a)
  {
    var last := lower - 1;
    LeftOwns(m, lower, upper, site, p, last);
    assert Covers(m, p, last);
    if m[lower].site == m[p].site {
      var found, j := GreatestKey(m.Keys, lower);
      var start := lower - m[lower].size;
      var a := if found && start < j then j else start;
      assert LastGap(m, lower, a);
      LeftOwns(m, lower, upper, site, p, a);
    }
  }

  // ---- Inside the new range

  /** Up to its end the keys inside the new range are those of the inner ranges, which stay as they are. */
  lemma InsideEntry(m: Index, lower: nat, upper: nat, site: Site, k: nat)
    requires lower < k < upper
    ensures var m' := Insert(m, lower, upper, site);
            (k in m' <==> Inner(m, lower, upper, k))
            && (k in m' ==> m'[k] == m[k])
  {
    if p: nat :| HoldsFirst(m, lower, p) {
      InsertHolds(m, lower, upper, site, p);
      if HoldsFirst(m, lower, k) {
        OneHolds(m, lower, p, k);
      }
    } else {
      InsertPlain(m, lower, upper, site);
    }
  }

  lemma NewEntry(m: Index, lower: nat, upper: nat, site: Site)
    requires lower <= upper
    ensures var m' := Insert(m, lower, upper, site); upper in m' && m'[upper] == Allocation(upper - lower, site)
  {
  }

  /** If all inner ranges are harmless, every address of the new range goes to its site. */
  lemma InsideOwned(m: Index, lower: nat, upper: nat, site: Site, a: nat)
    requires lower <= a < upper && forall k | Inner(m, lower, upper, k) :: Harmless(m, lower, upper, site, k)
    ensures Owner(Insert(m, lower, upper, site), a) == Some(site)
  {
    var m' := Insert(m, lower, upper, site);
    NewEntry(m, lower, upper, site);
    var found, k := LookUp(m', a);
    if k < upper {
      InsideEntry(m, lower, upper, site, k);
      assert Harmless(m, lower, upper, site, k);
      if j: nat :| Inner(m, lower, upper, j) && j < k && Reaches(m, k, j) {
        InsideEntry(m, lower, upper, site, j);
      }
    }
  }

  /** Just below the end of an inner range, the index finds that range. */
  lemma InnerFound(m: Index, lower: nat, upper: nat, site: Site, k: nat, a: nat)
    requires Inner(m, lower, upper, k) && lower <= a < k && forall j: nat | Inner(m, lower, upper, j) && j < k :: j <= a
    ensures Owner(Insert(m, lower, upper, site), a) == if Reaches(m, k, a) then Some(m[k].site) else None
  {
    var m' := Insert(m, lower, upper, site);
    InsideEntry(m, lower, upper, site, k);
    forall j: nat | j in m' && a < j
      ensures k <= j
    {
      if j < k {
        InsideEntry(m, lower, upper, site, j);
      }
    }
    OnlyUpperBound(m', a, k);
  }

  /** A harmful inner range takes an address of the new range away. */
  lemma HarmfulTakes(m: Index, lower: nat, upper: nat, site: Site, k: nat)
    requires Inner(m, lower, upper, k) && !Harmless(m, lower, upper, site, k)
    ensures exists a: nat :: lower <= a < upper && Owner(Insert(m, lower, upper, site), a) != Some(site)
  {
    var inner := set j | j in m && Inner(m, lower, upper, j);
    assert forall i: nat | Inner(m, lower, upper, i) :: i in inner;
    var found, j := GreatestKey(inner, k);
    var a := if m[k].site != site then k - 1 else if found then j else lower;
    InnerFound(m, lower, upper, site, k, a);
  }

  // ---- The exact condition

  /** The new range goes to the site and every other address keeps its owner. */
  ghost predicate Takes(m: Index, lower: nat, upper: nat, site: Site)
    requires lower <= upper
  {
    forall a: nat :: Owner(Insert(m, lower, upper, site), a) == if lower <= a < upper then Some(site) else Owner(m, a)
  }

  lemma NonemptyTakesExactlyWhen(m: Index, lower: nat, upper: nat, site: Site)
    requires lower < upper && Sized(m) && Visible(m)
    ensures Takes(m, lower, upper, site) <==> Kept(m, lower, upper, site)
  {
    var m' := Insert(m, lower, upper, site);
    if Kept(m, lower, upper, site) {
      forall a: nat
        ensures Owner(m', a) == if lower <= a < upper then Some(site) else Owner(m, a)
      {
        KeptTakes(m, lower, upper, site, a);
      }
    } else if k: nat :| Inner(m, lower, upper, k) && !Harmless(m, lower, upper, site, k) {
      HarmfulTakes(m, lower, upper, site, k);
    } else {
      var p: nat :| HoldsFirst(m, lower, p) && !Replaces(m, lower, p);
      BelowKeptExactlyWhen(m, lower, upper, site, p);
    }
  }

  lemma KeptTakes(m: Index, lower: nat, upper: nat, site: Site, a: nat)
    requires lower < upper && Sized(m) && Visible(m) && Kept(m, lower, upper, site)
    ensures Owner(Insert(m, lower, upper, site), a) == if lower <= a < upper then Some(site) else Owner(m, a)
  {
    if upper <= a {
      AboveKept(m, lower, upper, site, a);
    } else if lower <= a {
      InsideOwned(m, lower, upper, site, a);
    } else if p: nat :| HoldsFirst(m, lower, p) && p - m[p].size < lower {
      BelowKeptExactlyWhen(m, lower, upper, site, p);
    } else if LastGap(m, lower, a) {
      NothingLeftKept(m, lower, upper, site, a);
    } else {
      BelowGapKept(m, lower, upper, site, a);
    }
  }

  /** An empty range changes no owner exactly if no range ends at it or has it inside. */
  lemma EmptyTakesExactlyWhen(m: Index, lower: nat, site: Site)
    requires Sized(m) && Visible(m)
    ensures Takes(m, lower, lower, site) <==> Orderly(m, lower, lower)
  {
    var m' := Insert(m, lower, lower, site);
    NewEntry(m, lower, lower, site);
    if Orderly(m, lower, lower) {
      forall a: nat
        ensures Owner(m', a) == Owner(m, a)
      {
        EmptyKept(m, lower, site, a);
      }
    } else {
      var k: nat :| k in m && !(k < lower || lower <= k - m[k].size);
      var a := lower - 1;
      assert Covers(m, k, a);
      assert LastGap(m, lower, a);
      GapKeyIs(m, lower, lower, site, a);
      OnlyUpperBound(m', a, lower);
    }
  }

  lemma EmptyKept(m: Index, lower: nat, site: Site, a: nat)
    requires Visible(m) && Orderly(m, lower, lower)
    ensures Owner(Insert(m, lower, lower, site), a) == Owner(m, a)
  {
    if lower <= a {
      AboveKept(m, lower, lower, site, a);
    } else if LastGap(m, lower, a) {
      var found, k := LookUp(m, a);
      StaysUnowned(m, lower, lower, site, a);
    } else {
      BelowGapKept(m, lower, lower, site, a);
    }
  }

  lemma TakesExactlyWhen(m: Index, lower: nat, upper: nat, site: Site)
    requires lower <= upper && Sized(m) && Visible(m)
    ensures Takes(m, lower, upper, site) <==> Kept(m, lower, upper, site)
  {
    if lower < upper {
      NonemptyTakesExactlyWhen(m, lower, upper, site);
    } else {
      EmptyTakesExactlyWhen(m, lower, site);
    }
  }

  /** Such an allocation leaves every covered address visible. */
  lemma KeptStaysVisible(m: Index, lower: nat, upper: nat, site: Site)
    requires lower <= upper && Sized(m) && Visible(m) && Kept(m, lower, upper, site)
    ensures Sized(Insert(m, lower, upper, site)) && Visible(Insert(m, lower, upper, site))
  {
    var m' := Insert(m, lower, upper, site);
    TakesExactlyWhen(m, lower, upper, site);
    forall k: nat, a: nat | Covers(m', k, a)
      ensures Owner(m', a).Some?
    {
      if !(lower <= a < upper) {
        CoveredBefore(m, lower, upper, site, k, a);
        assert Owner(m', a) == Owner(m, a);
      }
    }
    forall k: nat | k in m'
      ensures m'[k].size <= k
    {
      EntryFrom(m, lower, upper, site, k);
    }
  }

  /**
   * The index agrees with the reference after an allocation, if and only if the allocation is one of those. Ranges
   * may overlap before and after it.
   */
  lemma AgreesExactlyWhen(m: Index, s: Lines, lower: nat, upper: nat, site: Site)
    requires Sized(m) && Visible(m) && Agrees(m, s) && lower <= upper && lower % LINE == 0 && upper % LINE == 0
    ensures Agrees(Insert(m, lower, upper, site), Mark(s, lower, upper, site)) <==> Kept(m, lower, upper, site)
  {
    var m', s' := Insert(m, lower, upper, site), Mark(s, lower, upper, site);
    TakesExactlyWhen(m, lower, upper, site);
    forall a: nat
      ensures LineOwner(s', a) == if lower <= a < upper then Some(site) else Owner(m, a)
    {
      MarkOwner(s, lower, upper, site, a);
      assert Owner(m, a) == LineOwner(s, a);
    }
    assert Agrees(m', s') <==> Takes(m, lower, upper, site) by {
      if Agrees(m', s') {
        forall a: nat
          ensures Owner(m', a) == if lower <= a < upper then Some(site) else Owner(m, a)
        {
          assert Owner(m', a) == LineOwner(s', a);
        }
      }
    }
  }

  /** Disjoint ranges hide nothing. */
  lemma DisjointIsVisible(m: Index)
    requires Disjoint(m)
    ensures Sized(m) && Visible(m)
  {
    forall k: nat, a: nat | Covers(m, k, a)
      ensures Owner(m, a).Some?
    {
      OwnerCovers(m, a);
    }
  }

  // ---- Runs of allocations

  datatype Malloc = Malloc(address: nat, size: nat, site: Site)

  /** The allocation ends inside the address space. */
  predicate EndsInMemory(c: Malloc) {
    c.address + c.size + 63 < TWO_64
  }

  predicate AllInMemory(calls: seq<Malloc>) {
    forall i | 0 <= i < |calls| :: EndsInMemory(calls[i])
  }

  lemma BoundsOrdered(address: nat, size: nat)
    requires address + size + 63 < TWO_64
    ensures Line(address) <= Upper(address, size) && Line(address) % LINE == 0 && Upper(address, size) % LINE == 0
    ensures size > 0 ==> Line(address) <= address && address + size <= Upper(address, size)
  {
  }

  ghost function Logged(m: Index, c: Malloc): Index
    requires EndsInMemory(c)
  {
    BoundsOrdered(c.address, c.size);
    Insert(m, Line(c.address), Upper(c.address, c.size), c.site)
  }

  ghost function LoggedSlow(s: Lines, c: Malloc): Lines {
    Mark(s, Line(c.address), Upper(c.address, c.size), c.site)
  }

  /** The index and the reference agree now and after each of the calls. */
  ghost predicate AgreesThroughout(m: Index, s: Lines, calls: seq<Malloc>)
    requires AllInMemory(calls)
    decreases |calls|
  {
    Agrees(m, s) && (calls != [] ==> AgreesThroughout(Logged(m, calls[0]), LoggedSlow(s, calls[0]), calls[1..]))
  }

  ghost predicate GoodThroughout(m: Index, s: Lines, calls: seq<Malloc>)
    requires AllInMemory(calls)
    decreases |calls|
  {
    Good(m, s) && (calls != [] ==> GoodThroughout(Logged(m, calls[0]), LoggedSlow(s, calls[0]), calls[1..]))
  }

  /** Every allocation keeps the agreement when it comes. */
  ghost predicate AllKept(m: Index, calls: seq<Malloc>)
    requires AllInMemory(calls)
    decreases |calls|
  {
    calls != [] ==>
      var c := calls[0];
      Kept(m, Line(c.address), Upper(c.address, c.size), c.site) && AllKept(Logged(m, c), calls[1..])
  }

  /** Every allocation is orderly when it comes. */
  ghost predicate AllOrderly(m: Index, calls: seq<Malloc>)
    requires AllInMemory(calls)
    decreases |calls|
  {
    calls != [] ==>
      var c := calls[0];
      Orderly(m, Line(c.address), Upper(c.address, c.size)) && AllOrderly(Logged(m, c), calls[1..])
  }

  lemma {:induction false} AgreesFrom(m: Index, s: Lines, calls: seq<Malloc>)
    requires Sized(m) && Visible(m) && Agrees(m, s) && AllInMemory(calls)
    ensures AgreesThroughout(m, s, calls) <==> AllKept(m, calls)
    decreases |calls|
  {
    if calls != [] {
      var c := calls[0];
      var lower, upper := Line(c.address), Upper(c.address, c.size);
      BoundsOrdered(c.address, c.size);
      AgreesExactlyWhen(m, s, lower, upper, c.site);
      if Kept(m, lower, upper, c.site) {
        KeptStaysVisible(m, lower, upper, c.site);
        AgreesFrom(Logged(m, c), LoggedSlow(s, c), calls[1..]);
      }
    }
  }

  /**
   * For every run of allocations from the empty tracker, overlapping in any way: the index gives every address the
   * owner that the reference has for it, after every call, if and only if every call keeps the agreement when it
   * comes.
   */
  lemma RunAgreesExactlyWhen(calls: seq<Malloc>)
    requires AllInMemory(calls)
    ensures AgreesThroughout(map[], map[], calls) <==> AllKept(map[], calls)
  {
    EmptyIsGood();
    DisjointIsVisible(map[]);
    AgreesFrom(map[], map[], calls);
  }

  lemma {:induction false} GoodFrom(m: Index, s: Lines, calls: seq<Malloc>)
    requires Good(m, s) && AllInMemory(calls)
    ensures GoodThroughout(m, s, calls) <==> AllOrderly(m, calls)
    decreases |calls|
  {
    if calls != [] {
      var c := calls[0];
      var lower, upper := Line(c.address), Upper(c.address, c.size);
      BoundsOrdered(c.address, c.size);
      GoodExactlyWhen(m, s, lower, upper, c.site);
      if Orderly(m, lower, upper) {
        GoodFrom(Logged(m, c), LoggedSlow(s, c), calls[1..]);
      }
    }
  }

  /** Over every run the ranges stay disjoint as well, if and only if every allocation is orderly when it comes. */
  lemma RunGoodExactlyWhen(calls: seq<Malloc>)
    requires AllInMemory(calls)
    ensures GoodThroughout(map[], map[], calls) <==> AllOrderly(map[], calls)
  {
    EmptyIsGood();
    GoodFrom(map[], map[], calls);
  }

  lemma EmptyIsGood()
    ensures Good(map[], map[])
  {
    forall a: nat
      ensures Owner(map[], a) == LineOwner(map[], a)
    {
      OwnerCovers(map[], a);
    }
  }

  // ---- Owners, byte by byte

  predicate SameLine(a: nat, b: nat) { a / 64 == b / 64 }

  /** The memory of the call meets the cache line of a; one without bytes meets the line its address lies inside. */
  predicate Meets(c: Malloc, a: nat) {
    var line := a - a % 64;
    line < c.address + c.size && c.address < line + 64
  }

  lemma MeetsItsBytes(c: Malloc, a: nat)
    requires c.size > 0
    ensures Meets(c, a) <==> exists b: nat :: c.address <= b < c.address + c.size && SameLine(a, b)
  {
    var line := a - a % 64;
    if Meets(c, a) {
      assert SameLine(a, if c.address < line then line else c.address);
    }
  }

  lemma BoundsMeet(c: Malloc, a: nat)
    requires EndsInMemory(c)
    ensures Line(c.address) <= a < Upper(c.address, c.size) <==> Meets(c, a)
  {
  }

  lemma LoggedOwner(s: Lines, c: Malloc, a: nat)
    requires EndsInMemory(c)
    ensures LineOwner(LoggedSlow(s, c), a) == if Meets(c, a) then Some(c.site) else LineOwner(s, a)
  {
    BoundsOrdered(c.address, c.size);
    MarkOwner(s, Line(c.address), Upper(c.address, c.size), c.site, a);
    BoundsMeet(c, a);
  }

  /** The per-line map gives the lines that the allocation meets to its site, and no others. */
  ghost predicate TakesItsLines(s: Lines, r: Lines, c: Malloc) {
    forall a: nat :: LineOwner(r, a) == if Meets(c, a) then Some(c.site) else LineOwner(s, a)
  }

  lemma LoggedTakesLines(s: Lines, c: Malloc)
    requires EndsInMemory(c)
    ensures TakesItsLines(s, LoggedSlow(s, c), c)
  {
    forall a: nat {
      LoggedOwner(s, c, a);
    }
  }

  ghost function IndexAfter(m: Index, calls: seq<Malloc>): Index
    requires AllInMemory(calls)
    decreases |calls|
  {
    if calls == [] then m else IndexAfter(Logged(m, calls[0]), calls[1..])
  }

  ghost function LinesAfter(s: Lines, calls: seq<Malloc>): Lines
    decreases |calls|
  {
    if calls == [] then s else LinesAfter(LoggedSlow(s, calls[0]), calls[1..])
  }

  /** The site of the last of the calls to meet the line of address a, or what was there before. */
  ghost predicate IsLastOwner(calls: seq<Malloc>, a: nat, before: Option<Site>, owner: Option<Site>) {
    || (owner == before && forall i | 0 <= i < |calls| :: !Meets(calls[i], a))
    || exists i :: 0 <= i < |calls| && Meets(calls[i], a) && owner == Some(calls[i].site)
                   && forall j | i < j < |calls| :: !Meets(calls[j], a)
  }

  lemma {:induction false} LinesAreLast(s: Lines, calls: seq<Malloc>, a: nat)
    requires AllInMemory(calls)
    ensures IsLastOwner(calls, a, LineOwner(s, a), LineOwner(LinesAfter(s, calls), a))
    decreases |calls|
  {
    if calls != [] {
      var c, rest := calls[0], calls[1..];
      LoggedOwner(s, c, a);
      LinesAreLast(LoggedSlow(s, c), rest, a);
      LastOwnerCons(c, rest, a, LineOwner(s, a), LineOwner(LinesAfter(s, calls), a));
      assert [c] + rest == calls;
    }
  }

  lemma LastOwnerCons(c: Malloc, calls: seq<Malloc>, a: nat, before: Option<Site>, owner: Option<Site>)
    requires IsLastOwner(calls, a, if Meets(c, a) then Some(c.site) else before, owner)
    ensures IsLastOwner([c] + calls, a, before, owner)
  {
    var all := [c] + calls;
    assert all[0] == c;
    if exists i :: 0 <= i < |calls| && Meets(calls[i], a) {
      var i :| 0 <= i < |calls| && Meets(calls[i], a) && owner == Some(calls[i].site)
        && forall j | i < j < |calls| :: !Meets(calls[j], a);
      assert all[i + 1] == calls[i];
      assert forall j | i + 1 < j < |all| :: all[j] == calls[j - 1];
    } else {
      assert forall j | 0 < j < |all| :: all[j] == calls[j - 1];
    }
  }

  lemma OneLastOwner(calls: seq<Malloc>, a: nat, x: Option<Site>, y: Option<Site>)
    requires IsLastOwner(calls, a, None, x) && IsLastOwner(calls, a, None, y)
    ensures x == y
  {
  }

  /** After these calls the index gives every address the site of the last of them that met its line. */
  ghost predicate FindsLastOwners(calls: seq<Malloc>)
    requires AllInMemory(calls)
  {
    forall a: nat :: IsLastOwner(calls, a, None, Owner(IndexAfter(map[], calls), a))
  }

  lemma AgreesIsFinding(calls: seq<Malloc>)
    requires AllInMemory(calls)
    ensures Agrees(IndexAfter(map[], calls), LinesAfter(map[], calls)) <==> FindsLastOwners(calls)
  {
    var m, s := IndexAfter(map[], calls), LinesAfter(map[], calls);
    forall a: nat
      ensures Owner(m, a) == LineOwner(s, a) <==> IsLastOwner(calls, a, None, Owner(m, a))
    {
      LinesAreLast(map[], calls, a);
      if IsLastOwner(calls, a, None, Owner(m, a)) {
        OneLastOwner(calls, a, Owner(m, a), LineOwner(s, a));
      }
    }
  }

  lemma {:induction false} AgreesAtEach(m: Index, s: Lines, calls: seq<Malloc>)
    requires AllInMemory(calls)
    ensures AgreesThroughout(m, s, calls) <==>
            forall n | 0 <= n <= |calls| :: Agrees(IndexAfter(m, calls[..n]), LinesAfter(s, calls[..n]))
    decreases |calls|
  {
    assert calls[..0] == [];
    if calls == [] {
      assert forall n | 0 <= n <= |calls| :: calls[..n] == [];
    } else {
      var rest := calls[1..];
      AgreesAtEach(Logged(m, calls[0]), LoggedSlow(s, calls[0]), rest);
      forall n | 0 < n <= |calls|
        ensures IndexAfter(m, calls[..n]) == IndexAfter(Logged(m, calls[0]), rest[..n - 1])
        ensures LinesAfter(s, calls[..n]) == LinesAfter(LoggedSlow(s, calls[0]), rest[..n - 1])
      {
        assert calls[..n][1..] == rest[..n - 1];
      }
      forall n | 0 <= n <= |rest|
        ensures IndexAfter(Logged(m, calls[0]), rest[..n]) == IndexAfter(m, calls[..n + 1])
        ensures LinesAfter(LoggedSlow(s, calls[0]), rest[..n]) == LinesAfter(s, calls[..n + 1])
      {
        assert calls[..n + 1][1..] == rest[..n];
      }
    }
  }

  /**
   * For every run of allocations from the empty tracker: after every call the index gives every address the site of
   * the last allocation that met its cache line, and none if none did, if and only if every call keeps the agreement
   * when it comes.
   */
  lemma RunFindsLastOwnersExactlyWhen(calls: seq<Malloc>)
    requires AllInMemory(calls)
    ensures (forall n | 0 <= n <= |calls| :: FindsLastOwners(calls[..n])) <==> AllKept(map[], calls)
  {
    RunAgreesExactlyWhen(calls);
    AgreesAtEach(map[], map[], calls);
    forall n | 0 <= n <= |calls|
      ensures Agrees(IndexAfter(map[], calls[..n]), LinesAfter(map[], calls[..n])) <==> FindsLastOwners(calls[..n])
    {
      AgreesIsFinding(calls[..n]);
    }
  }

  // ---- The tracker as it runs

  /** The ordered map's upper_bound. */
  method UpperBound(m: Index, a: nat) returns (found: bool, k: nat)
    ensures found ==> IsUpperBound(m, a, k)
    ensures !found ==> NoUpperBound(m, a)
  {
    found, k := false, 0;
    var rest := m.Keys;
    while rest != {}
      invariant rest <= m.Keys
      invariant found ==> k in m && a < k
      invariant forall j | j in m && j !in rest && a < j :: found && k <= j
      decreases |rest|
    {
      var j :| j in rest;
      rest := rest - {j};
      if a < j && (!found || j < k) {
        found, k := true, j;
      }
    }
  }

  class Tracker {
    var allocations: Index
    var allocationsSlow: Lines

    constructor ()
      ensures Good(allocations, allocationsSlow)
    {
      allocations, allocationsSlow := map[], map[];
      EmptyIsGood();
    }

    /**
     * Both maps take the allocation in. They still agree exactly when it keeps the agreement, and their ranges are
     * still disjoint as well exactly when it is orderly.
     */
    method LogMalloc(address: nat, size: nat, site: Site)
      requires EndsInMemory(Malloc(address, size, site))
      modifies this
      ensures Line(address) <= Upper(address, size)
      ensures allocations == Insert(old(allocations), Line(address), Upper(address, size), site)
      ensures allocationsSlow == Mark(old(allocationsSlow), Line(address), Upper(address, size), site)
      ensures old(Sized(allocations) && Visible(allocations) && Agrees(allocations, allocationsSlow)) ==>
                (Agrees(allocations, allocationsSlow) <==>
                   Kept(old(allocations), Line(address), Upper(address, size), site))
      ensures old(Good(allocations, allocationsSlow)) ==>
                (Good(allocations, allocationsSlow) <==> Orderly(old(allocations), Line(address), Upper(address, size)))
      ensures TakesItsLines(old(allocationsSlow), allocationsSlow, Malloc(address, size, site))
    {
      BoundsOrdered(address, size);
      var lower, upper := Line(address), Upper(address, size);
      MakeRoom(lower, upper);
      allocations := allocations[upper := Allocation(upper - lower, site)];
      MarkLines(lower, upper, site);
      LoggedTakesLines(old(allocationsSlow), Malloc(address, size, site));
      if old(Sized(allocations) && Visible(allocations) && Agrees(allocations, allocationsSlow)) {
        AgreesExactlyWhen(old(allocations), old(allocationsSlow), lower, upper, site);
      }
      if old(Good(allocations, allocationsSlow)) {
        GoodExactlyWhen(old(allocations), old(allocationsSlow), lower, upper, site);
      }
    }

    method MakeRoom(lower: nat, upper: nat)
      modifies this`allocations
      ensures allocations == Cleared(old(allocations), lower, upper)
    {
      var found, previous := UpperBound(allocations, lower);
      ClearedAt(allocations, lower, upper, found, previous);
      if found && lower >= previous - allocations[previous].size {
        var entry := allocations[previous];
        if previous - entry.size < lower {
          var start := previous - entry.size;
          allocations := allocations[lower := Allocation(lower - start, entry.site)];
        }
        if previous > upper {
          allocations := allocations[previous := Allocation(previous - upper, entry.site)];
        } else {
          allocations := allocations - {previous};
        }
      }
    }

    method MarkLines(lower: nat, upper: nat, site: Site)
      modifies this`allocationsSlow
      ensures allocationsSlow == Mark(old(allocationsSlow), lower, upper, site)
    {
      var addr := lower;
      while addr < upper
        invariant Mark(allocationsSlow, addr, upper, site) == Mark(old(allocationsSlow), lower, upper, site)
      {
        allocationsSlow := allocationsSlow[addr := site];
        addr := addr + LINE;
      }
    }

    /** The owner by the index, which is the owner by the reference as long as the two agree. */
    method GetOwner(address: nat) returns (owner: Option<Site>)
      ensures owner == Owner(allocations, address)
      ensures Agrees(allocations, allocationsSlow) ==> owner == LineOwner(allocationsSlow, address)
    {
      owner := None;
      var found, upper := UpperBound(allocations, address);
      if found {
        OnlyUpperBound(allocations, address, upper);
        if address >= upper - allocations[upper].size {
          owner := Some(allocations[upper].site);
        }
      }
    }
  }
}
