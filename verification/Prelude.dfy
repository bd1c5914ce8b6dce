/** What every module of the project shares: result types, white space, and filtering a list. */
module Prelude {
  datatype Option<+T> = None | Some(value: T)

  datatype Result<+T, +E> = Ok(value: T) | Err(error: E)

  /** JavaScript's white space, as `\s` and `trim` both have it. */
  predicate IsSpace(c: char) {
    || c == ' ' || 9 <= c as int <= 13 || c as int == 0xA0 || c as int == 0x1680
    || 0x2000 <= c as int <= 0x200A || c as int == 0x2028 || c as int == 0x2029
    || c as int == 0x202F || c as int == 0x205F || c as int == 0x3000 || c as int == 0xFEFF
  }

  /** Forward slashes for backslashes. */
  function Slashed(s: string): string {
    if s == "" then "" else [if s[0] == '\\' then '/' else s[0]] + Slashed(s[1..])
  }

  predicate EndsWith(s: string, suffix: string) {
    |suffix| <= |s| && s[|s| - |suffix|..] == suffix
  }

  /** The items of a list that pass, in their order. */
  function Where<T(!new)>(items: seq<T>, keep: T -> bool): (kept: seq<T>)
    ensures |kept| <= |items| && forall x :: x in kept <==> x in items && keep(x)
  {
    if items == [] then []
    else (if keep(items[0]) then [items[0]] else []) + Where(items[1..], keep)
  }
}
