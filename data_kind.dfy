/**
 * Data kinds, the registration order they are kept in, the lookup map built
 * from that order, and the stable weight sort applied to the list of kinds.
 */
module DataKinds {
  import opened Wrappers
  import opened JavaInt
  import opened WeightOrder

  /** A MIME type as Java holds it: a string reference that may be null (HashMap accepts a null key). */
  type MimeType = Option<string>

  /**
   * A category of contact data. Only the attributes the account type touches are modelled:
   * the MIME type it is indexed by, the weight it is sorted by, and the resource package
   * that registration stamps on it.
   */
  class DataKind {
    const mimeType: MimeType
    const weight: Int32
    var resPackageName: Option<string>

    constructor (mimeType: MimeType, weight: Int32)
      ensures this.mimeType == mimeType && this.weight == weight && resPackageName == None
    {
      this.mimeType := mimeType;
      this.weight := weight;
      resPackageName := None;
    }
  }

  // ---------------------------------------------------------------------------
  // Lookup by MIME type
  // ---------------------------------------------------------------------------

  /**
   * The position of the last kind in `s` whose MIME type is `m`, or -1 when none has it.
   */
  ghost function LastRegisteredIndex(s: seq<DataKind>, m: MimeType): (i: int)
    ensures -1 <= i < |s|
    ensures i >= 0 ==> s[i].mimeType == m
    ensures forall j :: i < j < |s| ==> s[j].mimeType != m
  {
    if s == [] then -1
    else if s[|s| - 1].mimeType == m then |s| - 1
    else LastRegisteredIndex(s[..|s| - 1], m)
  }

  /** The map that `put(kind.mimeType, kind)` builds when the kinds of `s` are put in order. */
  ghost function MimeIndex(s: seq<DataKind>): map<MimeType, DataKind>
  {
    if s == [] then map[] else MimeIndex(s[..|s| - 1])[s[|s| - 1].mimeType := s[|s| - 1]]
  }

  /** A permutation of a list holds every kind the list holds. */
  lemma PermutationKeepsMembers(a: seq<DataKind>, b: seq<DataKind>)
    requires multiset(a) == multiset(b)
    ensures forall i :: 0 <= i < |a| ==> a[i] in b
  {
    forall i | 0 <= i < |a|
      ensures a[i] in b
    {
      assert a[i] in multiset(a);
    }
  }

  /** The lookup map holds a MIME type exactly when some kind had it, and then holds the last such kind. */
  lemma {:induction false} MimeIndexIsLastRegistered(s: seq<DataKind>, m: MimeType)
    ensures m in MimeIndex(s) <==> LastRegisteredIndex(s, m) >= 0
    ensures m in MimeIndex(s) ==> MimeIndex(s)[m] == s[LastRegisteredIndex(s, m)]
  {
    if s != [] {
      MimeIndexIsLastRegistered(s[..|s| - 1], m);
    }
  }

  /** Every value of the lookup map is a registered kind, filed under its own MIME type. */
  lemma MimeIndexValuesAreRegistered(s: seq<DataKind>)
    ensures forall m :: m in MimeIndex(s) ==> MimeIndex(s)[m] in s && MimeIndex(s)[m].mimeType == m
  {
    forall m | m in MimeIndex(s)
      ensures MimeIndex(s)[m] in s && MimeIndex(s)[m].mimeType == m
    {
      MimeIndexIsLastRegistered(s, m);
    }
  }

  /**
   * A kind registered at position `i` and never registered again is shadowed once a later kind
   * with the same MIME type is registered at `j`: the lookup map files that MIME type under a
   * kind registered at `j` or later, and the earlier kind, although listed, is no value of the
   * map at all.
   */
  lemma LaterDuplicateShadowsEarlier(s: seq<DataKind>, i: int, j: int)
    requires 0 <= i < j < |s| && s[i].mimeType == s[j].mimeType
    requires forall k :: i < k < |s| ==> s[k] != s[i]
    ensures s[i].mimeType in MimeIndex(s)
    ensures j <= LastRegisteredIndex(s, s[i].mimeType) && MimeIndex(s)[s[i].mimeType] == s[LastRegisteredIndex(s, s[i].mimeType)]
    ensures s[i] in s && s[i] !in MimeIndex(s).Values
  {
    var m := s[i].mimeType;
    MimeIndexIsLastRegistered(s, m);
    MimeIndexValuesAreRegistered(s);
  }

  // ---------------------------------------------------------------------------
  // Stable sort by weight
  // ---------------------------------------------------------------------------

  /** Weights never decrease along `s`. */
  ghost predicate SortedByWeight(s: seq<DataKind>)
  {
    forall i, j :: 0 <= i < j < |s| ==> s[i].weight <= s[j].weight
  }

  /** The kinds of `s` that have weight `w`, in their order in `s`. */
  ghost function WithWeight(s: seq<DataKind>, w: int): seq<DataKind>
  {
    if s == [] then []
    else WithWeight(s[..|s| - 1], w) + (if s[|s| - 1].weight == w then [s[|s| - 1]] else [])
  }

  /** WithWeight keeps exactly the kinds of weight `w`. */
  lemma {:induction false} WithWeightMembers(s: seq<DataKind>, w: int)
    ensures forall i :: 0 <= i < |WithWeight(s, w)| ==> WithWeight(s, w)[i] in s && WithWeight(s, w)[i].weight == w
    ensures forall i :: 0 <= i < |s| && s[i].weight == w ==> s[i] in WithWeight(s, w)
  {
    if s != [] {
      WithWeightMembers(s[..|s| - 1], w);
      assert s == s[..|s| - 1] + [s[|s| - 1]];
    }
  }

  /**
   * `x` placed into `s` after every kind whose weight is at most its own, scanning from the end:
   * one step of a stable insertion sort.
   */
  ghost function InsertByWeight(s: seq<DataKind>, x: DataKind): seq<DataKind>
  {
    if s == [] || Compare(s[|s| - 1].weight, x.weight) <= 0 then s + [x]
    else InsertByWeight(s[..|s| - 1], x) + [s[|s| - 1]]
  }

  /** Insertion adds `x` and loses nothing. */
  lemma {:induction false} InsertByWeightPermutes(s: seq<DataKind>, x: DataKind)
    ensures multiset(InsertByWeight(s, x)) == multiset(s) + multiset{x}
  {
    if s != [] && s[|s| - 1].weight > x.weight {
      assert s == s[..|s| - 1] + [s[|s| - 1]];
      InsertByWeightPermutes(s[..|s| - 1], x);
    }
  }

  /** Inserting into a weight-ordered list keeps it weight-ordered. */
  lemma {:induction false} InsertByWeightSorted(s: seq<DataKind>, x: DataKind)
    requires SortedByWeight(s)
    ensures SortedByWeight(InsertByWeight(s, x))
  {
    if s != [] && s[|s| - 1].weight > x.weight {
      var init, last := s[..|s| - 1], s[|s| - 1];
      assert SortedByWeight(init);
      InsertByWeightSorted(init, x);
      InsertByWeightPermutes(init, x);
      var a := InsertByWeight(init, x);
      forall i | 0 <= i < |a|
        ensures a[i].weight <= last.weight
      {
        assert a[i] in multiset(init) + multiset{x};
        if a[i] != x {
          assert a[i] in init;
          var k :| 0 <= k < |init| && init[k] == a[i];
          assert s[k] == a[i];
        }
      }
    }
  }

  /** The stable sort of `s` by ascending weight (insertion of each kind in turn). */
  ghost function SortByWeight(s: seq<DataKind>): seq<DataKind>
  {
    if s == [] then [] else InsertByWeight(SortByWeight(s[..|s| - 1]), s[|s| - 1])
  }

  /** The sort returns the kinds it was given, each as often as it was given: a permutation. */
  lemma {:induction false} SortByWeightPermutes(s: seq<DataKind>)
    ensures multiset(SortByWeight(s)) == multiset(s)
  {
    if s != [] {
      assert s == s[..|s| - 1] + [s[|s| - 1]];
      SortByWeightPermutes(s[..|s| - 1]);
      InsertByWeightPermutes(SortByWeight(s[..|s| - 1]), s[|s| - 1]);
    }
  }

  /** The sort returns the kinds in non-decreasing weight order. */
  lemma {:induction false} SortByWeightSorted(s: seq<DataKind>)
    ensures SortedByWeight(SortByWeight(s))
  {
    if s != [] {
      SortByWeightSorted(s[..|s| - 1]);
      InsertByWeightSorted(SortByWeight(s[..|s| - 1]), s[|s| - 1]);
    }
  }

  /** Filtering by weight distributes over concatenation. */
  lemma {:induction false} WithWeightAppend(s: seq<DataKind>, t: seq<DataKind>, w: int)
    ensures WithWeight(s + t, w) == WithWeight(s, w) + WithWeight(t, w)
  {
    if t == [] {
      assert s + t == s;
    } else {
      var t0 := t[..|t| - 1];
      assert (s + t)[..|s + t| - 1] == s + t0;
      WithWeightAppend(s, t0, w);
    }
  }

  /** Inserting `x` keeps, for every weight, the kinds of that weight in order, with `x` last among its equals. */
  lemma {:induction false} InsertKeepsWeightClasses(s: seq<DataKind>, x: DataKind, w: int)
    ensures WithWeight(InsertByWeight(s, x), w) == WithWeight(s + [x], w)
  {
    assert (s + [x])[..|s|] == s;
    if s == [] || s[|s| - 1].weight <= x.weight {
    } else {
      var init, last := s[..|s| - 1], s[|s| - 1];
      var a := InsertByWeight(init, x);
      assert (a + [last])[..|a|] == a;
      InsertKeepsWeightClasses(init, x, w);
      assert (init + [x])[..|init|] == init;
      assert s == init + [last];
    }
  }

  /** The sort is stable: for every weight, the kinds of that weight keep their relative order. */
  lemma {:induction false} SortByWeightIsStable(s: seq<DataKind>, w: int)
    ensures WithWeight(SortByWeight(s), w) == WithWeight(s, w)
  {
    if s != [] {
      var init, last := s[..|s| - 1], s[|s| - 1];
      SortByWeightIsStable(init, w);
      InsertKeepsWeightClasses(SortByWeight(init), last, w);
      var a := SortByWeight(init);
      assert (a + [last])[..|a|] == a;
    }
  }

  /** A list already in weight order is left exactly as it is. */
  lemma {:induction false} SortByWeightKeepsSorted(s: seq<DataKind>)
    requires SortedByWeight(s)
    ensures SortByWeight(s) == s
  {
    if s != [] {
      var init, last := s[..|s| - 1], s[|s| - 1];
      assert s == init + [last];
      assert SortedByWeight(init);
      SortByWeightKeepsSorted(init);
    }
  }

  /** Sorting twice gives what sorting once gives. */
  lemma SortByWeightIdempotent(s: seq<DataKind>)
    ensures SortByWeight(SortByWeight(s)) == SortByWeight(s)
  {
    SortByWeightSorted(s);
    SortByWeightKeepsSorted(SortByWeight(s));
  }

  /**
   * Two weight-ordered lists that agree, weight by weight, on which kinds they hold and in
   * which order, are the same list.
   */
  lemma {:induction false} SortedWeightClassesDetermineList(r: seq<DataKind>, t: seq<DataKind>)
    requires SortedByWeight(r) && SortedByWeight(t)
    requires forall w :: WithWeight(r, w) == WithWeight(t, w)
    ensures r == t
    decreases |r|
  {
    if r == [] {
      NoWeightClassesMeansEmpty(t);
    } else if t == [] {
      NoWeightClassesMeansEmpty(r);
    } else {
      var r0, t0, last := r[..|r| - 1], t[..|t| - 1], r[|r| - 1];
      SameLastKind(r, t);
      assert r == r0 + [last] && t == t0 + [last];
      PrefixesKeepWeightClasses(r0, t0, last);
      DropLastKeepsSorted(r);
      DropLastKeepsSorted(t);
      SortedWeightClassesDetermineList(r0, t0);
    }
  }

  /** A list with no kind of any weight is empty. */
  lemma NoWeightClassesMeansEmpty(t: seq<DataKind>)
    requires forall w :: WithWeight(t, w) == []
    ensures t == []
  {
    if t != [] {
      WithWeightMembers(t, t[0].weight);
      assert false;
    }
  }

  /** Dropping the last kind of a weight-ordered list leaves it weight-ordered. */
  lemma DropLastKeepsSorted(s: seq<DataKind>)
    requires SortedByWeight(s) && s != []
    ensures SortedByWeight(s[..|s| - 1])
  {
  }

  /** Two non-empty weight-ordered lists with the same weight classes end with the same kind. */
  lemma SameLastKind(r: seq<DataKind>, t: seq<DataKind>)
    requires SortedByWeight(r) && SortedByWeight(t) && r != [] && t != []
    requires forall w :: WithWeight(r, w) == WithWeight(t, w)
    ensures r[|r| - 1] == t[|t| - 1]
  {
    var lr, lt := r[|r| - 1], t[|t| - 1];
    LastIsHeaviest(r, lt.weight);
    LastIsHeaviest(t, lr.weight);
    var w0 := lr.weight;
    assert WithWeight(r, w0) == WithWeight(r[..|r| - 1], w0) + [lr];
    assert WithWeight(t, w0) == WithWeight(t[..|t| - 1], w0) + [lt];
    assert lr == WithWeight(r, w0)[|WithWeight(r, w0)| - 1] == lt;
  }

  /** Dropping a common last kind keeps two lists' weight classes equal. */
  lemma PrefixesKeepWeightClasses(r0: seq<DataKind>, t0: seq<DataKind>, last: DataKind)
    requires forall w :: WithWeight(r0 + [last], w) == WithWeight(t0 + [last], w)
    ensures forall w :: WithWeight(r0, w) == WithWeight(t0, w)
  {
    forall w
      ensures WithWeight(r0, w) == WithWeight(t0, w)
    {
      var fr, ft := WithWeight(r0, w), WithWeight(t0, w);
      assert (r0 + [last])[..|r0|] == r0 && (t0 + [last])[..|t0|] == t0;
      assert WithWeight(r0 + [last], w) == WithWeight(t0 + [last], w);
      if last.weight == w {
        assert fr + [last] == ft + [last];
        assert fr == (fr + [last])[..|fr|];
        assert ft == (ft + [last])[..|ft|];
      } else {
        assert fr + [] == fr && ft + [] == ft;
      }
    }
  }

  /** In a weight-ordered list, any weight that occurs is at most the weight of the last kind. */
  lemma LastIsHeaviest(s: seq<DataKind>, w: int)
    requires SortedByWeight(s) && s != [] && WithWeight(s, w) != []
    ensures w <= s[|s| - 1].weight
  {
    WithWeightMembers(s, w);
    var k := WithWeight(s, w)[0];
    var i :| 0 <= i < |s| && s[i] == k;
  }

  /**
   * SortByWeight is THE stable sort: any weight-ordered list that keeps every weight class of `s`
   * in its order is SortByWeight(s).
   */
  lemma StableSortIsUnique(s: seq<DataKind>, r: seq<DataKind>)
    requires SortedByWeight(r)
    requires forall w :: WithWeight(r, w) == WithWeight(s, w)
    ensures r == SortByWeight(s)
  {
    forall w
      ensures WithWeight(r, w) == WithWeight(SortByWeight(s), w)
    {
      SortByWeightIsStable(s, w);
    }
    SortByWeightSorted(s);
    SortedWeightClassesDetermineList(r, SortByWeight(s));
  }

  /**
   * Sorting a permutation `s` of the registered kinds `reg` that keeps each weight's kinds in
   * registration order: the result is sorted, a permutation, keeps every weight class, leaves
   * a sorted `s` alone, and is the same as sorting `reg` itself.
   */
  lemma SortKeepsRegistrationOrder(s: seq<DataKind>, reg: seq<DataKind>)
    requires multiset(s) == multiset(reg)
    requires forall w :: WithWeight(s, w) == WithWeight(reg, w)
    ensures SortedByWeight(SortByWeight(s)) && multiset(SortByWeight(s)) == multiset(reg)
    ensures forall w :: WithWeight(SortByWeight(s), w) == WithWeight(s, w) == WithWeight(reg, w)
    ensures SortedByWeight(s) ==> SortByWeight(s) == s
    ensures SortByWeight(s) == SortByWeight(reg)
  {
    SortByWeightPermutes(s);
    SortByWeightSorted(s);
    forall w
      ensures WithWeight(SortByWeight(s), w) == WithWeight(s, w)
    {
      SortByWeightIsStable(s, w);
    }
    if SortedByWeight(s) {
      SortByWeightKeepsSorted(s);
    }
    StableSortIsUnique(reg, SortByWeight(s));
  }

  /**
   * `Collections.sort`: copies the list into an array, sorts the array in place and reads the
   * result back.
   */
  method SortThroughArray(s: seq<DataKind>) returns (r: seq<DataKind>)
    ensures r == SortByWeight(s)
  {
    var a := new DataKind[|s|](i requires 0 <= i < |s| => s[i]);
    assert a[..] == s;
    SortInPlace(a);
    r := a[..];
  }

  /**
   * `Collections.sort(list, sWeightComparator)` after the list has been copied to an array:
   * a stable insertion sort in place. (For fewer than 32 elements, Java's TimSort is itself a
   * binary insertion sort.)
   */
  method SortInPlace(a: array<DataKind>)
    modifies a
    ensures a[..] == SortByWeight(old(a[..]))
  {
    ghost var orig := a[..];
    var i := 0;
    while i < a.Length
      invariant 0 <= i <= a.Length
      invariant a[..i] == SortByWeight(orig[..i])
      invariant a[i..] == orig[i..]
    {
      assert a[i] == orig[i];
      InsertAt(a, i);
      assert SortByWeight(orig[..i + 1]) == InsertByWeight(SortByWeight(orig[..i]), orig[i]) by {
        assert orig[..i + 1][..i] == orig[..i];
      }
      assert a[i + 1..] == orig[i + 1..];
      i := i + 1;
    }
    assert orig[..a.Length] == orig;
  }

  /** Moves `a[i]` left past the heavier kinds before it, into the weight-ordered prefix `a[..i]`. */
  method InsertAt(a: array<DataKind>, i: nat)
    requires i < a.Length
    modifies a
    ensures a[..i + 1] == InsertByWeight(old(a[..i]), old(a[i]))
    ensures a[i + 1..] == old(a[i + 1..])
  {
    var x := a[i];
    ghost var p := a[..i];
    var j := i;
    while j > 0 && Compare(a[j - 1].weight, x.weight) > 0
      invariant 0 <= j <= i
      invariant forall k :: 0 <= k < j ==> a[k] == p[k]
      invariant forall k :: j < k <= i ==> a[k] == p[k - 1]
      invariant forall k :: j <= k < i ==> p[k].weight > x.weight
      invariant forall k :: i < k < a.Length ==> a[k] == old(a[k])
    {
      a[j] := a[j - 1];
      j := j - 1;
    }
    a[j] := x;
    InsertByWeightAt(p, x, j);
    assert a[..i + 1] == p[..j] + [x] + p[j..];
  }

  /**
   * Insertion puts `x` right after the last kind that is not heavier than it, when all kinds
   * after that point are heavier.
   */
  lemma {:induction false} InsertByWeightAt(p: seq<DataKind>, x: DataKind, j: int)
    requires 0 <= j <= |p|
    requires j == 0 || p[j - 1].weight <= x.weight
    requires forall k :: j <= k < |p| ==> p[k].weight > x.weight
    ensures InsertByWeight(p, x) == p[..j] + [x] + p[j..]
    decreases |p|
  {
    if j == |p| {
      assert p[..j] == p && p[j..] == [];
    } else {
      var init, last := p[..|p| - 1], p[|p| - 1];
      InsertByWeightAt(init, x, j);
      assert init[..j] == p[..j];
      assert init[j..] + [last] == p[j..];
    }
  }
}
