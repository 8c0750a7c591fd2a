# AccountType: data kinds of a contact-data source

This project models in Dafny the core of `AccountType` from the Android Contacts app. An
account type describes one source of contact data, such as a sync adapter. The model covers
four things, and proves properties of each:

- **Registry of data kinds** (`account_type.dfy`, `data_kind.dfy`). A data kind is a category
  of contact data, such as phone numbers or e-mail addresses, identified by a MIME type.
  `AddKind` stamps the account type's resource package on the kind. It then appends the kind
  to an ordered list (`kinds`) and files it in a map keyed by MIME type (`mimeKinds`).
  `KindForMimetype` looks a kind up in the map. `GetSortedDataKinds` sorts the list in place,
  by ascending weight.
  - A ghost field `registered` records every `AddKind` call in order.
  - The invariant `Valid()` says three things. The list is a permutation of the registered
    kinds. For every weight, the listed kinds of that weight are in registration order. The map
    is what putting the kinds into a map in registration order builds (`MimeIndex`).
  - So a sort always yields the registered kinds by weight, with equal weights in registration
    order, however many sorts came before.
  - A MIME type registered twice therefore behaves as in the source. The lookup returns the
    later kind, while the list keeps both (`LaterDuplicateShadowsEarlier`).
- **Weight order and stable sort** (`weight_order.dfy`, `data_kind.dfy`).
  - `Collections.sort` copies the list to an array, sorts the array stably and writes it back.
    The model does the same (`SortThroughArray`). `SortInPlace` is a stable insertion sort on
    the array. (Java's
    TimSort is itself a binary insertion sort below 32 elements.)
  - The sort is proved equal to the specification function `SortByWeight`. About that function
    the model proves five things. It permutes its input. It is sorted by weight. It is stable:
    for every weight, the kinds of that weight keep their order. It leaves sorted input alone,
    and so it is idempotent. It is the only list with these properties (`StableSortIsUnique`).
- **Resource-text resolution** (`resources.dfy`, `account_type.dfy`). `getResourceText` makes a
  three-way choice, and so do the label and icon rules built on it. The platform lookups are
  abstract outcomes: `PackageText`/`ContextText`/`Literal` for text and
  `PackageDrawable`/`ContextDrawable`/`NoIcon` for icons. The icon's quirk is kept: the guard
  tests `titleRes`, but the lookup uses `iconRes`.
- **Edit types and edit fields** (`edit_types.dfy`). These are classes with chained setters that
  return `this`.
  - An `EditType` has a `specificMax` that starts at -1. Its equality and hash depend on
    `rawValue` alone.
  - An `EventEditType` is an `EditType` built with the `Event` constructor. It adds
    `yearOptional`.
  - `EditField.IsMultiLine` tests the multi-line bit of the input type.

Java `null` strings are `Option<string>` (`None` is null). The map is keyed by `Option<string>`
as well, because `HashMap` accepts a null key. Java `int` values are the subset type `Int32`.
Input types are `bv32`.

Two places where the source's documentation and its code differ; the model follows the code:
- The comment on `getInviteContactActionLabel` says it returns null when no label is defined.
  The code returns `""` (`InviteContactActionLabel`).
- The list and the map are described as holding the same kinds. The code lets a second kind with
  the same MIME type replace the first in the map while both stay in the list.

## Model

| member | source | states |
|---|---|---|
| `AccountTypes.AccountType.constructor` | src/com/android/contacts/model/AccountType.java:57-84 | a new account type has Java's field defaults (null strings, zero ids, not read-only), an empty kind list and an empty map, and satisfies the list/map invariant |
| `AccountTypes.AccountType.AddKind` | src/com/android/contacts/model/AccountType.java:247-252 | registration stamps the type's resource package on the kind, appends it to the list, files it under its MIME type (replacing only that entry), returns the kind itself, keeps the invariant, and afterwards the lookup of its MIME type yields it |
| `AccountTypes.AccountType.KindForMimetype` | src/com/android/contacts/model/AccountType.java:240-242 | the lookup misses exactly when no listed kind has the MIME type; a hit is a listed kind with that MIME type, namely the one registered last under it |
| `AccountTypes.AccountType.MappedKindsAreListed` | src/com/android/contacts/model/AccountType.java:79-84 | every kind in the lookup map is also in the list, filed under its own MIME type |
| `AccountTypes.AccountType.GetSortedDataKinds` | src/com/android/contacts/model/AccountType.java:229-233 | the list becomes the stable weight sort of its old contents: sorted by weight, a permutation, each weight's kinds in their old order, unchanged if it was already sorted (so a second call changes nothing); whatever came before, the result is the registered kinds by weight with equal weights in registration order (the invariant keeps each weight's kinds in registration order); the map is untouched and the sorted list is returned |
| `DataKinds.SortThroughArray` | src/com/android/contacts/model/AccountType.java:231 | `Collections.sort` on the list (copy to an array, sort it in place, read it back) yields `SortByWeight` of the list |
| `DataKinds.SortKeepsRegistrationOrder` | src/com/android/contacts/model/AccountType.java:229-233 | sorting a permutation of the registered kinds that keeps each weight's kinds in registration order gives a sorted permutation with the same weight classes, leaves sorted input alone, and equals sorting the registered kinds themselves |
| `DataKinds.SortInPlace` | src/com/android/contacts/model/AccountType.java:231 | sorting the array copy in place leaves it equal to `SortByWeight` of its old contents |
| `DataKinds.SortByWeightPermutes` | src/com/android/contacts/model/AccountType.java:231 | the sort neither loses nor duplicates a kind: same multiset |
| `DataKinds.SortByWeightSorted` | src/com/android/contacts/model/AccountType.java:225-233 | the sorted list has non-decreasing weights |
| `DataKinds.SortByWeightIsStable` | src/com/android/contacts/model/AccountType.java:231 | for every weight, the kinds of that weight appear in the same order before and after sorting (stability of `Collections.sort`) |
| `DataKinds.SortByWeightKeepsSorted` | src/com/android/contacts/model/AccountType.java:231 | a list already in weight order is returned unchanged |
| `DataKinds.SortByWeightIdempotent` | src/com/android/contacts/model/AccountType.java:229-233 | sorting twice gives the same list as sorting once |
| `DataKinds.StableSortIsUnique` | src/com/android/contacts/model/AccountType.java:231 | any weight-sorted list that keeps every weight class of the input in order is exactly `SortByWeight` of the input, so the model's insertion sort and Java's merge sort agree |
| `DataKinds.LastRegisteredIndex` | src/com/android/contacts/model/AccountType.java:247-252 | the position of the last registered kind with a given MIME type, or -1 exactly when no registered kind has it |
| `DataKinds.MimeIndexIsLastRegistered` | src/com/android/contacts/model/AccountType.java:250 | the map built by successive `put`s holds a MIME type iff some registered kind had it, and then holds the last such kind |
| `DataKinds.MimeIndexValuesAreRegistered` | src/com/android/contacts/model/AccountType.java:249-250 | every map value is a registered kind and is filed under its own MIME type |
| `DataKinds.LaterDuplicateShadowsEarlier` | src/com/android/contacts/model/AccountType.java:249-250 | when a kind is registered and later another kind with the same MIME type, and the first is not registered again, the lookup gives a kind registered no earlier than the second, and the first, though in the list, is no value of the map |
| `WeightOrder.Compare` | src/com/android/contacts/model/AccountType.java:219-223 | the weight comparison the sort uses: negative, zero or positive exactly as the first weight is less than, equal to or greater than the second |
| `WeightOrder.CompareAsWritten` | src/com/android/contacts/model/AccountType.java:221 | the comparator as written: the true weight difference when it fits in an `int`, otherwise that difference shifted by 2^32 (Java `int` wrap-around) |
| `WeightOrder.AsWrittenAgreesWithoutOverflow` | src/com/android/contacts/model/AccountType.java:221 | when the weight difference fits in an `int`, the subtracting comparator has the same sign as the intended comparison |
| `WeightOrder.AsWrittenIsNotTransitive` | src/com/android/contacts/model/AccountType.java:221 | with weights `Integer.MIN_VALUE`, 0 and 1 the subtracting comparator orders MIN < 0 and 0 < 1 but MIN > 1 |
| `Resources.ResourceText` | src/com/android/contacts/model/AccountType.java:184-194 | the default is returned iff the resource id is -1; otherwise the id passed is looked up, in the given package when there is one and in the current context when the package is null |
| `Resources.UnsetResourceGivesDefault` | src/com/android/contacts/model/AccountType.java:189-193 | with resource id -1 the result is the default whatever the package |
| `Resources.SetResourceIgnoresDefault` | src/com/android/contacts/model/AccountType.java:186-190 | with a valid resource id the default never influences the result |
| `AccountTypes.AccountType.DisplayLabel` | src/com/android/contacts/model/AccountType.java:139-141 | with no title resource the label is the `accountType` string itself; otherwise the title resource from the summary package, or from the current context when that package is null |
| `AccountTypes.AccountType.InviteContactActionResId` | src/com/android/contacts/model/AccountType.java:146-148 | the base account type defines no invite-action label resource (-1) |
| `AccountTypes.AccountType.InviteContactActionLabel` | src/com/android/contacts/model/AccountType.java:171-174 | with the base resource id the invite-action label is the empty string, not null |
| `AccountTypes.AccountType.DisplayIcon` | src/com/android/contacts/model/AccountType.java:196-205 | no icon iff there is no title resource; otherwise the icon resource, from the summary package when set, else from the current context |
| `AccountTypes.AccountType.IconFollowsLabel` | src/com/android/contacts/model/AccountType.java:196-205 | icon and label take the same branch with the same package; an icon lookup is made even when `iconRes` is -1 as long as `titleRes` is set |
| `EditTypes.EditType.constructor` | src/com/android/contacts/model/AccountType.java:271-275 | a new edit type has the given raw value and label, `specificMax` -1, not secondary, no custom column |
| `EditTypes.EditType.Event` | src/com/android/contacts/model/AccountType.java:310-312 | a new event edit type is an edit type with the same defaults for which `IsYearOptional` is false |
| `EditTypes.EditType.SetSecondary` | src/com/android/contacts/model/AccountType.java:277-280 | sets only `secondary`, so the hash is unchanged, and returns the same object |
| `EditTypes.EditType.SetSpecificMax` | src/com/android/contacts/model/AccountType.java:282-285 | sets only `specificMax`, so the hash is unchanged, and returns the same object |
| `EditTypes.EditType.SetCustomColumn` | src/com/android/contacts/model/AccountType.java:287-290 | sets only `customColumn`, so the hash is unchanged, and returns the same object |
| `EditTypes.EditType.SetYearOptional` | src/com/android/contacts/model/AccountType.java:318-321 | on an event edit type, sets only the year-optional flag, so `IsYearOptional` then returns the value set, and returns the same object |
| `EditTypes.EditType.IsYearOptional` | src/com/android/contacts/model/AccountType.java:314-316 | reads the year-optional flag of an event edit type: false after construction, and the last value given to `SetYearOptional` |
| `EditTypes.EditType.Equals` | src/com/android/contacts/model/AccountType.java:292-299 | an edit type equals another exactly when both hash alike, i.e. have the same raw value; nothing equals null |
| `EditTypes.EditType.HashCode` | src/com/android/contacts/model/AccountType.java:301-304 | the hash is the raw value; no setter of an edit type changes it |
| `EditTypes.EqualityIgnoresOtherAttributes` | src/com/android/contacts/model/AccountType.java:292-304 | two edit types with the same raw value are interchangeable for equality and hashing against any third, whatever their class, labels, flags, maximum or custom column |
| `EditTypes.EqualsIsEquivalence` | src/com/android/contacts/model/AccountType.java:292-299 | edit-type equality is reflexive, symmetric and transitive |
| `EditTypes.EqualsAgreesWithHashCode` | src/com/android/contacts/model/AccountType.java:301-304 | the hash is the raw value, so equal edit types hash equally |
| `EditTypes.EditField.constructor` | src/com/android/contacts/model/AccountType.java:339-342 | a new field has the given column and title, input type 0 (so it is not multi-line) and every flag false |
| `EditTypes.EditField.WithInputType` | src/com/android/contacts/model/AccountType.java:344-347 | as the two-argument constructor, with the given input type |
| `EditTypes.EditField.SetOptional` | src/com/android/contacts/model/AccountType.java:349-352 | sets only `optional` and returns the same object |
| `EditTypes.EditField.SetShortForm` | src/com/android/contacts/model/AccountType.java:354-357 | sets only `shortForm` and returns the same object |
| `EditTypes.EditField.SetLongForm` | src/com/android/contacts/model/AccountType.java:359-362 | sets only `longForm` and returns the same object |
| `EditTypes.EditField.SetMinLines` | src/com/android/contacts/model/AccountType.java:364-367 | sets only `minLines` and returns the same object |
| `EditTypes.EditField.SetIsFullName` | src/com/android/contacts/model/AccountType.java:369-372 | sets only `isFullName` and returns the same object |
| `EditTypes.EditField.IsMultiLine` | src/com/android/contacts/model/AccountType.java:374-376 | a field is multi-line iff bit 17 of its input type (`TYPE_TEXT_FLAG_MULTI_LINE`, 0x20000) is set |
| `EditTypes.MultiLineFollowsFlag` | src/com/android/contacts/model/AccountType.java:374-376 | a field whose input type is another's with the flag set is multi-line, one with it cleared is single-line, and two fields whose input types agree on the flag agree on being multi-line |

## Left out

- `AccountTypes.AccountType.GetSortedDataKinds` returns the sorted contents as a value. In Java
  it returns the `mKinds` list object itself, so a caller that changes the returned list
  changes the registry. That aliasing is not modelled.
- `DataKinds.SortInPlace` is a stable insertion sort, not TimSort. `StableSortIsUnique` shows
  that any stable sort by weight gives the same list.
- `WeightOrder.Compare` replaces the subtracting comparator in the sort (see Findings). Where
  weights differ by more than an `int` can hold, the source's sort may throw or misorder. The
  model sorts correctly there instead.
- `EditTypes.EditType.Equals` takes an `EditType?`. Java's `equals(Object)` also accepts other
  classes, and returns false for them.
- Only three attributes of `DataKind` are modelled: the MIME type, the weight and the resource
  package. Its class is not part of this model. The MIME type and weight are constants, since
  nothing in the modelled code writes them.
- The platform calls behind text and icon lookup are not modelled: `Context`,
  `PackageManager.getText`/`getDrawable` and `Resources.getDrawable`. They are I/O, so each is
  represented only by the outcome that names the lookup. Their results and failures are not
  modelled, and the `Context` parameter is dropped.
- `DisplayLabelComparator` is left out. Its order is locale collation by `java.text.Collator`, a
  foreign library.
- `StringInflater` is left out. It is an interface with no implementation here, and it works on
  `Cursor`/`ContentValues`.
- Several hooks are left out:
  - the abstract `isGroupMembershipEditable`, `getHeaderColor` and `getSideBarColor` have no
    body;
  - `isExternal` returns the constant false;
  - the activity, service and stream-item hooks all return null.
- `getAccountTypeAndDataSet` is left out. It delegates to `AccountTypeWithDataSet.get`, which is
  not part of this model.
- `getExtensionPackageNames` is left out. It only returns a new empty list.
- `AccountTypes.AccountType.InviteContactActionResId` models only the base class. In Java,
  `getInviteContactActionResId` is a protected hook that subclasses override. With the base
  value -1, `InviteContactActionLabel` never resolves a real resource; subclass overrides are
  not modelled.
- Concurrency is not modelled. The registry is built on one thread and only read afterwards.

## Findings

| source | as written | input that shows it | evidently intended | confidence | as-written member | corrected member |
|---|---|---|---|---|---|---|
| src/com/android/contacts/model/AccountType.java:221 | the weight comparator returns `object1.weight - object2.weight` in 32-bit arithmetic, which wraps | weights `Integer.MIN_VALUE`, 0, 1: it orders MIN < 0 and 0 < 1 but MIN > 1, so it is not transitive and the sort's contract is broken | order by weight, as `Integer.compare(object1.weight, object2.weight)` does | not executed; real weights are small, so this is latent | `WeightOrder.AsWrittenIsNotTransitive` | `WeightOrder.Compare` |
