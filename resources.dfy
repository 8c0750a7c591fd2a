/**
 * Where display text and icons come from. The platform lookups themselves (PackageManager,
 * Context, Resources) are not modelled: each outcome names the lookup that would be made.
 */
module Resources {
  import opened Wrappers
  import opened JavaInt

  /** The resource id that means "not defined". */
  const NO_RESOURCE: Int32 := -1

  /** The text a resolution yields. */
  datatype Text =
    | PackageText(packageName: string, resId: Int32)  // text resource `resId` of package `packageName`
    | ContextText(resId: Int32)                       // text resource `resId` of the current context
    | Literal(value: Option<string>)                  // the caller's default, returned as it is (maybe null)

  /** The icon a resolution yields. */
  datatype Icon =
    | PackageDrawable(packageName: string, resId: Int32)  // drawable `resId` of package `packageName`
    | ContextDrawable(resId: Int32)                       // drawable `resId` of the current context
    | NoIcon                                              // null

  /**
   * Text for `resId`, looked up in `packageName` when one is given and in the current context
   * otherwise; the default only when `resId` is NO_RESOURCE.
   */
  function ResourceText(packageName: Option<string>, resId: Int32, defaultValue: Option<string>): (t: Text)
    ensures t.Literal? <==> resId == NO_RESOURCE
    ensures t.Literal? ==> t.value == defaultValue
    ensures t.PackageText? <==> resId != NO_RESOURCE && packageName.Some?
    ensures t.PackageText? ==> Some(t.packageName) == packageName
    ensures !t.Literal? ==> t.resId == resId
  {
    if resId != NO_RESOURCE && packageName.Some? then PackageText(packageName.value, resId)
    else if resId != NO_RESOURCE then ContextText(resId)
    else Literal(defaultValue)
  }

  /** When no resource is named, neither the package nor anything else but the default matters. */
  lemma UnsetResourceGivesDefault(p1: Option<string>, p2: Option<string>, defaultValue: Option<string>)
    ensures ResourceText(p1, NO_RESOURCE, defaultValue) == ResourceText(p2, NO_RESOURCE, defaultValue)
    ensures ResourceText(p1, NO_RESOURCE, defaultValue) == Literal(defaultValue)
  {
  }

  /** When a resource is named, the default is never used, whatever it is. */
  lemma SetResourceIgnoresDefault(p: Option<string>, resId: Int32, d1: Option<string>, d2: Option<string>)
    requires resId != NO_RESOURCE
    ensures ResourceText(p, resId, d1) == ResourceText(p, resId, d2)
  {
  }
}
