/** What strstr tells. */
module Texts {

  predicate Contains(s: string, part: string) {
    exists i :: 0 <= i <= |s| && part <= s[i..]
  }

  lemma ContainsAt(s: string, i: nat, part: string)
    requires i <= |s| && part <= s[i..]
    ensures Contains(s, part)
  {
  }
}
