/** What several modules share. */
module Basics {

  datatype Option<+T> = None | Some(value: T)

  predicate EndsWith(s: string, suffix: string) {
    |suffix| <= |s| && s[|s| - |suffix|..] == suffix
  }
}
