/** Small shared vocabulary: an optional value and the few JavaScript string
    idioms (`a || b` on strings, `startsWith`) that the modelled code relies on.
    Throughout the model an absent or null string is the empty string, since
    JavaScript's truthiness treats `undefined`, `null` and `""` alike. */
module Common {

  datatype Option<+T> = None | Some(value: T) {
    /** `x || fallback` for a value that is either an object or null. */
    function GetOr(fallback: T): T {
      match this
      case Some(v) => v
      case None => fallback
    }
  }

  /** JavaScript `a || b` on strings: the empty string is falsy. */
  function Or(a: string, b: string): (r: string)
    ensures a != "" ==> r == a
    ensures a == "" ==> r == b
    ensures r == "" <==> a == "" && b == ""
  {
    if a != "" then a else b
  }

  /** `s.startsWith(p)`. */
  predicate StartsWith(s: string, p: string) {
    |p| <= |s| && s[..|p|] == p
  }
}
