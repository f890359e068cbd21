/** Values and string tests that every part of the model shares. */
module Basics {

  datatype Option<T> = None | Some(value: T)

  predicate HasPrefix(s: string, p: string) {
    |p| <= |s| && s[..|p|] == p
  }

  predicate HasSuffix(s: string, p: string) {
    |p| <= |s| && s[|s| - |p|..] == p
  }
}
