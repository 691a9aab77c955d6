/** Beginnings and ends of text. */
module Affix {

  predicate StartsWith(s: string, prefix: string) { |s| >= |prefix| && s[..|prefix|] == prefix }

  predicate EndsWith(s: string, suffix: string) { |s| >= |suffix| && s[|s| - |suffix|..] == suffix }
}
