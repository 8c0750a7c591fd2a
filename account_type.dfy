/**
 * An account type: the constraints of one contact-data source, chiefly the data kinds it
 * supports, kept both in registration order and in a lookup map by MIME type.
 */
module AccountTypes {
  import opened Wrappers
  import opened JavaInt
  import opened DataKinds
  import opened Resources

  class AccountType {
    var accountType: Option<string>
    var dataSet: Option<string>
    /** Package that resources are loaded from; stamped on every kind at registration. */
    var resPackageName: Option<string>
    var summaryResPackageName: Option<string>
    var titleRes: Int32
    var iconRes: Int32
    var readOnly: bool

    /** The supported kinds (`mKinds`), in registration order until they are sorted. */
    var kinds: seq<DataKind>
    /** Lookup of the kinds by MIME type (`mMimeKinds`). */
    var mimeKinds: map<MimeType, DataKind>
    /** Every kind ever passed to AddKind, in call order. */
    ghost var registered: seq<DataKind>

    /**
     * The list holds exactly the registered kinds, and kinds of equal weight stay in
     * registration order (sorting reorders only kinds of different weights); the map is what
     * putting the kinds in registration order builds.
     */
    ghost predicate Valid()
      reads this
    {
      && multiset(kinds) == multiset(registered)
      && (forall w :: WithWeight(kinds, w) == WithWeight(registered, w))
      && mimeKinds == MimeIndex(registered)
    }

    /** A fresh account type: Java's field defaults, no kinds. */
    constructor ()
      ensures Valid() && kinds == [] && mimeKinds == map[] && registered == []
      ensures accountType == None && dataSet == None
      ensures resPackageName == None && summaryResPackageName == None
      ensures titleRes == 0 && iconRes == 0 && !readOnly
    {
      accountType, dataSet := None, None;
      resPackageName, summaryResPackageName := None, None;
      titleRes, iconRes, readOnly := 0, 0, false;
      kinds, mimeKinds := [], map[];
      registered := [];
    }

    /**
     * The kind registered last under MIME type `m`, or None when no registered kind has that
     * MIME type.
     */
    function KindForMimetype(m: MimeType): (r: Option<DataKind>)
      reads this
      requires Valid()
      ensures r.None? <==> forall i :: 0 <= i < |kinds| ==> kinds[i].mimeType != m
      ensures r.Some? ==> r.value in kinds && r.value.mimeType == m
      ensures var i := LastRegisteredIndex(registered, m);
                r == if i < 0 then None else Some(registered[i])
    {
      MimeIndexIsLastRegistered(registered, m);
      PermutationKeepsMembers(kinds, registered);
      PermutationKeepsMembers(registered, kinds);
      if m in mimeKinds then Some(mimeKinds[m]) else None
    }

    /** Every kind in the lookup map is in the list, filed under its own MIME type. */
    lemma MappedKindsAreListed()
      requires Valid()
      ensures forall m :: m in mimeKinds ==> mimeKinds[m] in kinds && mimeKinds[m].mimeType == m
    {
      MimeIndexValuesAreRegistered(registered);
      PermutationKeepsMembers(registered, kinds);
    }

    /**
     * Registers `kind`: stamps this type's resource package on it, appends it to the list and
     * files it under its MIME type, replacing any kind filed there before. Returns `kind`.
     */
    method AddKind(kind: DataKind) returns (r: DataKind)
      requires Valid()
      modifies this`kinds, this`mimeKinds, this`registered, kind`resPackageName
      ensures Valid()
      ensures r == kind && kind.resPackageName == resPackageName
      ensures kinds == old(kinds) + [kind] && registered == old(registered) + [kind]
      ensures mimeKinds == old(mimeKinds)[kind.mimeType := kind]
      ensures KindForMimetype(kind.mimeType) == Some(kind)
    {
      kind.resPackageName := resPackageName;
      kinds := kinds + [kind];
      mimeKinds := mimeKinds[kind.mimeType := kind];
      registered := registered + [kind];
      assert registered[..|registered| - 1] == old(registered);
      forall w
        ensures WithWeight(kinds, w) == WithWeight(registered, w)
      {
        WithWeightAppend(old(kinds), [kind], w);
        WithWeightAppend(old(registered), [kind], w);
      }
      r := kind;
    }

    /**
     * Sorts the list of kinds in place by ascending weight, stably, and returns it. The lookup
     * map is not touched. Whatever sorts came before, the result is the registered kinds
     * ordered by weight with equal weights in registration order.
     */
    method GetSortedDataKinds() returns (sorted: seq<DataKind>)
      requires Valid()
      modifies this`kinds
      ensures Valid()
      ensures kinds == SortByWeight(old(kinds)) && sorted == kinds
      ensures kinds == SortByWeight(registered)
      ensures SortedByWeight(kinds) && multiset(kinds) == multiset(old(kinds))
      ensures forall w :: WithWeight(kinds, w) == WithWeight(old(kinds), w)
      ensures SortedByWeight(old(kinds)) ==> kinds == old(kinds)
    {
      ghost var s := kinds;
      sorted := SortThroughArray(kinds);
      kinds := sorted;
      SortKeepsRegistrationOrder(s, registered);
      assert mimeKinds == old(mimeKinds) && registered == old(registered);
    }

    /** The display label: the title resource if there is one, else the account type string itself. */
    function DisplayLabel(): (t: Text)
      reads this
      ensures titleRes == NO_RESOURCE ==> t == Literal(accountType)
      ensures titleRes != NO_RESOURCE && summaryResPackageName.Some? ==>
                t == PackageText(summaryResPackageName.value, titleRes)
      ensures titleRes != NO_RESOURCE && summaryResPackageName.None? ==> t == ContextText(titleRes)
    {
      ResourceText(summaryResPackageName, titleRes, accountType)
    }

    /** The base account type defines no label resource for the "invite contact" action. */
    function InviteContactActionResId(): (id: Int32)
      ensures id == NO_RESOURCE
    {
      NO_RESOURCE
    }

    /** With no label resource, the "invite contact" label is the empty string (not null). */
    function InviteContactActionLabel(): (t: Text)
      reads this
      ensures t == Literal(Some(""))
    {
      ResourceText(summaryResPackageName, InviteContactActionResId(), Some(""))
    }

    /**
     * The display icon: none when there is no title resource; otherwise the icon resource, from
     * the summary package if there is one, else from the current context. The guard tests the
     * title resource while the lookup uses the icon resource.
     */
    function DisplayIcon(): (i: Icon)
      reads this
      ensures i.NoIcon? <==> titleRes == NO_RESOURCE
      ensures i.PackageDrawable? <==> titleRes != NO_RESOURCE && summaryResPackageName.Some?
      ensures i.PackageDrawable? ==> Some(i.packageName) == summaryResPackageName
      ensures !i.NoIcon? ==> i.resId == iconRes
    {
      if titleRes != NO_RESOURCE && summaryResPackageName.Some? then
        PackageDrawable(summaryResPackageName.value, iconRes)
      else if titleRes != NO_RESOURCE then ContextDrawable(iconRes)
      else NoIcon
    }

    /**
     * Icon and label take the same branch (same guard, same package) and differ only in the
     * resource they look up; in particular an icon lookup is made even when `iconRes` is unset.
     */
    lemma IconFollowsLabel()
      ensures DisplayIcon().NoIcon? <==> DisplayLabel().Literal?
      ensures DisplayIcon().PackageDrawable? <==> DisplayLabel().PackageText?
      ensures DisplayIcon().PackageDrawable? ==> DisplayIcon().packageName == DisplayLabel().packageName
      ensures DisplayIcon().ContextDrawable? <==> DisplayLabel().ContextText?
      ensures titleRes != NO_RESOURCE && iconRes == NO_RESOURCE ==> DisplayIcon().resId == NO_RESOURCE
    {
    }
  }
}
