/** What the Qt list models share: the `QVariant` a `data` call returns
    and the first application-defined role number. */
module ItemModel {
  /** The `QVariant` values the list models hand to views: the empty
      variant (`return {}`), a string, a boolean or an integer. */
  datatype Variant = Invalid | VStr(s: string) | VBool(b: bool) | VInt(n: int)

  /** `Qt::UserRole`: the application roles are numbered from here on. */
  const UserRole: int := 0x0100

  /** `QVariant::toString()` on the variants the proxy reads back: the
      string held, "true"/"false" for a boolean, "" for the empty variant
      (the decimal text of an integer is never needed). */
  function ToStr(v: Variant): (s: string)
    requires !v.VInt?
    ensures v.VStr? ==> s == v.s
    ensures v.Invalid? ==> s == ""
  {
    match v
    case VStr(t) => t
    case VBool(b) => if b then "true" else "false"
    case Invalid => ""
  }
}
