/**
 * The memory tracker: which allocation site owns an address. The index is a map from the end of each allocated range
 * of cache lines to its size and site; the reference is a plain map from cache lines to sites.
 */
module MemoryTracker {
  import opened Prelude
  import opened Bytes

  const LINE: nat := 64

  type Site = seq<nat>  // the call stack that stands for an allocation site

  datatype Allocation = Allocation(size: nat, site: Site)

  type Index = map<nat, Allocation>
  type Lines = map<nat, Site>

  /** address & ~63 */
  function Line(address: nat): nat {
    address - address % LINE
  }

  /** The first line that no longer belongs to the allocation, in 64-bit arithmetic. */
  function Upper(address: nat, size: nat): nat {
    Line((address + size + 63) % TWO_64)
  }

  /** k is the least key above a. */
  ghost predicate IsUpperBound(m: Index, a: nat, k: nat) {
    k in m && a < k && forall j | j in m && a < j :: k <= j
  }

  ghost predicate NoUpperBound(m: Index, a: nat) {
    forall j | j in m :: j <= a
  }

  /** a is not below the start of the range that ends at k. */
  predicate Reaches(m: Index, k: nat, a: nat)
    requires k in m
  {
    k - m[k].size <= a
  }

  ghost function Owner(m: Index, a: nat): Option<Site> {
    if exists k :: IsUpperBound(m, a, k) then
      var k :| IsUpperBound(m, a, k);
      if Reaches(m, k, a) then Some(m[k].site) else None
    else None
  }

  /** What remains of the range that ends at k once [lower, upper) is taken out of it. */
  function Split(m: Index, k: nat, lower: nat, upper: nat): Index
    requires k in m && Reaches(m, k, lower)
  {
    var start := k - m[k].size;
    var site := m[k].site;
    var left := if start < lower then m[lower := Allocation(lower - start, site)] else m;
    if k > upper then left[k := Allocation(k - upper, site)] else left - {k}
  }

  /** The index once the range that holds the first line has made room. */
  ghost function Cleared(m: Index, lower: nat, upper: nat): Index {
    if exists k :: IsUpperBound(m, lower, k) then
      var k :| IsUpperBound(m, lower, k);
      if Reaches(m, k, lower) then Split(m, k, lower, upper) else m
    else m
  }

  ghost function Insert(m: Index, lower: nat, upper: nat, site: Site): Index
    requires lower <= upper
  {
    Cleared(m, lower, upper)[upper := Allocation(upper - lower, site)]
  }

  /** The reference: every line of the range is given to the site. */
  ghost function Mark(s: Lines, lower: nat, upper: nat, site: Site): Lines
    decreases upper - lower
  {
    if lower >= upper then s else Mark(s[lower := site], lower + LINE, upper, site)
  }

  function LineOwner(s: Lines, a: nat): Option<Site> {
    if Line(a) in s then Some(s[Line(a)]) else None
  }

  lemma ClearedAt(m: Index, lower: nat, upper: nat, found: bool, k: nat)
    requires if found then IsUpperBound(m, lower, k) else NoUpperBound(m, lower)
    ensures Cleared(m, lower, upper) == if found && Reaches(m, k, lower) then Split(m, k, lower, upper) else m
  {
    forall j | IsUpperBound(m, lower, j)
      ensures found && j == k
    {
      assert j in m;
    }
  }

  // ---- The index against the reference

  ghost predicate Disjoint(m: Index) {
    && (forall k | k in m :: m[k].size <= k)
    && (forall j, k | j in m && k in m && j < k :: j <= k - m[k].size)
  }

  ghost predicate Agrees(m: Index, s: Lines) {
    forall a: nat :: Owner(m, a) == LineOwner(s, a)
  }

  ghost predicate Good(m: Index, s: Lines) {
    Disjoint(m) && Agrees(m, s)
  }

  /** a lies in the range that ends at k. */
  predicate Covers(m: Index, k: nat, a: nat) {
    k in m && k - m[k].size <= a < k
  }

  lemma {:induction false} LeastKey(keys: set<nat>, a: nat) returns (k: nat)
    requires exists j :: j in keys && a < j
    ensures k in keys && a < k && forall j | j in keys && a < j :: k <= j
    decreases keys
  {
    var j :| j in keys && a < j;
    var rest := keys - {j};
    if exists i :: i in rest && a < i {
      k := LeastKey(rest, a);
      k := if j < k then j else k;
    } else {
      k := j;
    }
    forall i | i in keys && a < i
      ensures k <= i
    {
      assert i == j || i in rest;
    }
  }

  /** On disjoint ranges the least key above an address finds the one range that has it. */
  lemma OwnerCovers(m: Index, a: nat)
    requires Disjoint(m)
    ensures forall k | Covers(m, k, a) :: Owner(m, a) == Some(m[k].site)
    ensures (forall k :: !Covers(m, k, a)) ==> Owner(m, a) == None
  {
    if Owner(m, a).Some? {
      var k :| IsUpperBound(m, a, k) && Reaches(m, k, a);
      assert Covers(m, k, a);
    }
    forall k | Covers(m, k, a)
      ensures Owner(m, a) == Some(m[k].site)
    {
      var j := LeastKey(m.Keys, a);
      assert IsUpperBound(m, a, j);
      assert j == k;
      OnlyUpperBound(m, a, k);
    }
  }

  lemma OnlyUpperBound(m: Index, a: nat, k: nat)
    requires IsUpperBound(m, a, k)
    ensures Owner(m, a) == if Reaches(m, k, a) then Some(m[k].site) else None
  {
    forall j | IsUpperBound(m, a, j)
      ensures j == k
    {
      assert k in m && j in m;
    }
  }

  // ---- One allocation

  /**
   * The ranges an allocation can cope with. Of those that meet the new range, one may hold its first line and one may
   * end where it ends; an empty range must not touch the end or the inside of any other.
   */
  ghost predicate Orderly(m: Index, lower: nat, upper: nat) {
    if lower < upper then
      forall k | k in m :: k <= lower || Reaches(m, k, lower) || k == upper || upper <= k - m[k].size
    else
      forall k | k in m :: k < lower || lower <= k - m[k].size
  }

  /** The two shapes of the index before the new entry goes in. */
  lemma ClearedIs(m: Index, lower: nat, upper: nat)
    requires Disjoint(m)
    ensures forall k | Covers(m, k, lower) :: Cleared(m, lower, upper) == Split(m, k, lower, upper)
    ensures (forall k :: !Covers(m, k, lower)) ==> Cleared(m, lower, upper) == m
  {
    if exists k :: IsUpperBound(m, lower, k) {
      var k :| IsUpperBound(m, lower, k);
      forall j | IsUpperBound(m, lower, j)
        ensures j == k
      {
        assert k in m && j in m;
      }
      if Reaches(m, k, lower) {
        assert Covers(m, k, lower);
        forall j | Covers(m, j, lower)
          ensures j == k
        {
        }
      } else {
        forall j
          ensures !Covers(m, j, lower)
        {
          if j in m && lower < j {
            assert k <= j;
          }
        }
      }
    } else {
      forall k | Covers(m, k, lower)
        ensures false
      {
        var j := LeastKey(m.Keys, lower);
        assert IsUpperBound(m, lower, j);
      }
    }
  }

  /** The index when the range that ends at p holds the first line. */
  function SplitIn(m: Index, p: nat, lower: nat, upper: nat, site: Site): Index
    requires lower <= upper && Covers(m, p, lower)
  {
    Split(m, p, lower, upper)[upper := Allocation(upper - lower, site)]
  }

  /** Every entry is the new one, a remainder of the split range, or an old one that is neither. */
  lemma SplitEntry(m: Index, p: nat, lower: nat, upper: nat, site: Site, k: nat)
    requires lower <= upper && Disjoint(m) && Orderly(m, lower, upper) && Covers(m, p, lower)
             && k in SplitIn(m, p, lower, upper, site)
    ensures var m' := SplitIn(m, p, lower, upper, site);
            || (k == upper && m'[k] == Allocation(upper - lower, site))
            || (k == lower < upper && p - m[p].size < lower && m'[k] == Allocation(lower - (p - m[p].size), m[p].site))
            || (k == p > upper && m'[k] == Allocation(p - upper, m[p].site))
            || (k in m && m'[k] == m[k] && (k <= p - m[p].size || (k > p && upper <= k - m[k].size)))
  {
  }

  lemma SplitKeepsDisjoint(m: Index, p: nat, lower: nat, upper: nat, site: Site)
    requires lower <= upper && Disjoint(m) && Orderly(m, lower, upper) && Covers(m, p, lower)
    ensures Disjoint(SplitIn(m, p, lower, upper, site))
  {
    var m' := SplitIn(m, p, lower, upper, site);
    forall j, k | j in m' && k in m' && j < k
      ensures j <= k - m'[k].size
    {
      SplitEntry(m, p, lower, upper, site, j);
      SplitEntry(m, p, lower, upper, site, k);
    }
    forall k | k in m'
      ensures m'[k].size <= k
    {
      SplitEntry(m, p, lower, upper, site, k);
    }
  }

  /** Addresses outside the new range are covered by what covered them before. */
  lemma SplitOwner(m: Index, p: nat, lower: nat, upper: nat, site: Site, a: nat)
    requires lower <= upper && Disjoint(m) && Orderly(m, lower, upper) && Covers(m, p, lower) && !(lower <= a < upper)
    ensures Owner(SplitIn(m, p, lower, upper, site), a) == Owner(m, a)
  {
    var m' := SplitIn(m, p, lower, upper, site);
    SplitKeepsDisjoint(m, p, lower, upper, site);
    OwnerCovers(m', a);
    OwnerCovers(m, a);
    if k: nat :| Covers(m', k, a) {
      SplitEntry(m, p, lower, upper, site, k);
      assert Covers(m, if k in m && m'[k] == m[k] then k else p, a);
    } else if k: nat :| Covers(m, k, a) {
      SplitCovered(m, p, lower, upper, site, a, k);
    }
  }

  lemma SplitCovered(m: Index, p: nat, lower: nat, upper: nat, site: Site, a: nat, k: nat)
    requires lower <= upper && Disjoint(m) && Orderly(m, lower, upper) && Covers(m, p, lower) && !(lower <= a < upper)
    requires Covers(m, k, a)
    ensures exists j :: Covers(SplitIn(m, p, lower, upper, site), j, a)
  {
    var m' := SplitIn(m, p, lower, upper, site);
    assert Covers(m', if k != p then k else if a < lower then lower else p, a);
  }

  /** With no range at the first line the new entry simply goes in. */
  lemma PlainOwner(m: Index, lower: nat, upper: nat, site: Site, a: nat)
    requires lower <= upper && Disjoint(m) && Orderly(m, lower, upper) && forall k :: !Covers(m, k, lower)
    ensures var m' := m[upper := Allocation(upper - lower, site)];
            Disjoint(m') && (!(lower <= a < upper) ==> Owner(m', a) == Owner(m, a))
  {
    var m' := m[upper := Allocation(upper - lower, site)];
    forall k | k in m
      ensures k <= lower || k == upper || upper <= k - m[k].size
    {
      assert !Covers(m, k, lower);
    }
    assert Disjoint(m');
    if !(lower <= a < upper) {
      OwnerCovers(m', a);
      OwnerCovers(m, a);
      forall k: nat
        ensures Covers(m', k, a) <==> Covers(m, k, a) && m'[k] == m[k]
        ensures Covers(m, k, a) ==> Covers(m', k, a)
      {
        assert !Covers(m, k, lower);
      }
    }
  }

  /** The new range goes to the site and every other address keeps its owner. */
  lemma InsertOwner(m: Index, lower: nat, upper: nat, site: Site, a: nat)
    requires lower <= upper && Disjoint(m) && Orderly(m, lower, upper)
    ensures Disjoint(Insert(m, lower, upper, site))
    ensures Owner(Insert(m, lower, upper, site), a) == if lower <= a < upper then Some(site) else Owner(m, a)
  {
    ClearedIs(m, lower, upper);
    if p: nat :| Covers(m, p, lower) {
      SplitKeepsDisjoint(m, p, lower, upper, site);
      if !(lower <= a < upper) {
        SplitOwner(m, p, lower, upper, site, a);
      }
    } else {
      PlainOwner(m, lower, upper, site, a);
    }
    if lower <= a < upper {
      OwnerCovers(Insert(m, lower, upper, site), a);
      assert Covers(Insert(m, lower, upper, site), upper, a);
    }
  }

  // ---- The reference and whole runs

  lemma LineBelow(a: nat, lower: nat, upper: nat)
    requires lower % LINE == 0 && upper % LINE == 0
    ensures lower <= a < upper <==> lower <= Line(a) < upper
  {
  }

  lemma {:induction false} MarkIs(s: Lines, lower: nat, upper: nat, site: Site, line: nat)
    requires lower % LINE == 0 && line % LINE == 0
    ensures var s' := Mark(s, lower, upper, site);
            && (line in s' <==> line in s || lower <= line < upper)
            && (line in s' ==> s'[line] == if lower <= line < upper then site else s[line])
    decreases upper - lower
  {
    if lower < upper {
      MarkIs(s[lower := site], lower + LINE, upper, site, line);
    }
  }

  lemma MarkOwner(s: Lines, lower: nat, upper: nat, site: Site, a: nat)
    requires lower % LINE == 0 && upper % LINE == 0
    ensures LineOwner(Mark(s, lower, upper, site), a) == if lower <= a < upper then Some(site) else LineOwner(s, a)
  {
    MarkIs(s, lower, upper, site, Line(a));
    LineBelow(a, lower, upper);
  }

  lemma OrderlyKeepsGood(m: Index, s: Lines, lower: nat, upper: nat, site: Site)
    requires Good(m, s) && lower <= upper && lower % LINE == 0 && upper % LINE == 0 && Orderly(m, lower, upper)
    ensures Good(Insert(m, lower, upper, site), Mark(s, lower, upper, site))
  {
    forall a: nat
      ensures Owner(Insert(m, lower, upper, site), a) == LineOwner(Mark(s, lower, upper, site), a)
    {
      InsertOwner(m, lower, upper, site, a);
      MarkOwner(s, lower, upper, site, a);
      assert Owner(m, a) == LineOwner(s, a);
    }
    InsertOwner(m, lower, upper, site, 0);
  }

  lemma DisorderlyOverlaps(m: Index, lower: nat, upper: nat, site: Site, k: nat)
    requires Disjoint(m) && lower < upper
    requires k in m && lower < k && !Covers(m, k, lower) && k != upper && k - m[k].size < upper
    ensures !Disjoint(Insert(m, lower, upper, site))
  {
    KeptByInsert(m, lower, upper, site, k);
    var m' := Insert(m, lower, upper, site);
    assert upper in m' && m'[upper].size == upper - lower;
  }

  /** Disjoint ranges and agreement with the reference survive an allocation exactly when it is orderly. */
  lemma GoodExactlyWhen(m: Index, s: Lines, lower: nat, upper: nat, site: Site)
    requires Good(m, s) && lower <= upper && lower % LINE == 0 && upper % LINE == 0
    ensures Good(Insert(m, lower, upper, site), Mark(s, lower, upper, site)) <==> Orderly(m, lower, upper)
  {
    if Orderly(m, lower, upper) {
      OrderlyKeepsGood(m, s, lower, upper, site);
    } else if lower < upper {
      var k :| k in m && !(k <= lower || Reaches(m, k, lower) || k == upper || upper <= k - m[k].size);
      DisorderlyOverlaps(m, lower, upper, site, k);
    } else {
      var k :| k in m && !(k < lower || lower <= k - m[k].size);
      EmptyForgets(m, s, lower, site, k);
    }
  }

  /** A range that does not hold the first line stays as it is. */
  lemma KeptByInsert(m: Index, lower: nat, upper: nat, site: Site, k: nat)
    requires Disjoint(m) && lower <= upper && k in m && !Covers(m, k, lower) && k != lower && k != upper
    ensures k in Insert(m, lower, upper, site) && Insert(m, lower, upper, site)[k] == m[k]
  {
    ClearedIs(m, lower, upper);
    if p: nat :| Covers(m, p, lower) {
      assert Cleared(m, lower, upper) == Split(m, p, lower, upper);
    }
  }

  /** An empty range on the end or inside of another one hides the part of it that lies below. */
  lemma EmptyForgets(m: Index, s: Lines, lower: nat, site: Site, k: nat)
    requires Good(m, s) && k in m && k - m[k].size < lower <= k
    ensures !Agrees(Insert(m, lower, lower, site), Mark(s, lower, lower, site))
  {
    var a := lower - 1;
    var m' := Insert(m, lower, lower, site);
    OwnerCovers(m, a);
    assert Covers(m, k, a);
    assert IsUpperBound(m', a, lower);
    OnlyUpperBound(m', a, lower);
    assert Owner(m, a) == LineOwner(s, a);
  }

  /** A range that ends strictly inside the new one makes the index forget the owner of the new one's first line. */
  lemma SwallowedRangeForgets(m: Index, s: Lines, lower: nat, upper: nat, site: Site, k: nat)
    requires Good(m, s) && lower % LINE == 0 && upper % LINE == 0
    requires k in m && lower < k < upper && !Covers(m, k, lower)
    ensures Owner(Insert(m, lower, upper, site), lower) == None
    ensures LineOwner(Mark(s, lower, upper, site), lower) == Some(site)
  {
    MarkOwner(s, lower, upper, site, lower);
    var m' := Insert(m, lower, upper, site);
    KeptByInsert(m, lower, upper, site, k);
    var j := LeastKey(m'.Keys, lower);
    assert IsUpperBound(m', lower, j);
    OnlyUpperBound(m', lower, j);
    assert j <= k;
    InsideIsOld(m, lower, upper, site, j);
  }

  /** A key strictly inside the new range is an old one that does not hold the first line. */
  lemma InsideIsOld(m: Index, lower: nat, upper: nat, site: Site, j: nat)
    requires Disjoint(m) && lower < j < upper && j in Insert(m, lower, upper, site)
    ensures !Reaches(Insert(m, lower, upper, site), j, lower)
  {
    ClearedIs(m, lower, upper);
    if p: nat :| Covers(m, p, lower) {
      assert Cleared(m, lower, upper) == Split(m, p, lower, upper);
      assert j != p;
      assert j in m && !Covers(m, j, lower);
    } else {
      assert j in m && !Covers(m, j, lower);
    }
  }
}
