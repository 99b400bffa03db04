/** The characters `str.isspace`, `str.strip` and the regular expression class `\s` agree on. */
module Whitespace {
  predicate IsSpace(c: char) {
    var n := c as int;
    9 <= n <= 13 || 28 <= n <= 32 || n == 0x85 || n == 0xA0 || n == 0x1680 || 0x2000 <= n <= 0x200A
    || n == 0x2028 || n == 0x2029 || n == 0x202F || n == 0x205F || n == 0x3000
  }

  predicate AllSpace(s: string) {
    forall i | 0 <= i < |s| :: IsSpace(s[i])
  }

  /** How many characters of `s` are leading white space. */
  function Skip(s: string): (n: nat)
    ensures n <= |s| && AllSpace(s[..n])
    ensures n < |s| ==> !IsSpace(s[n])
  {
    if s != "" && IsSpace(s[0]) then
      assert s[..1 + Skip(s[1..])] == [s[0]] + s[1..][..Skip(s[1..])];
      1 + Skip(s[1..])
    else 0
  }

  /** The count is the only one with what `Skip` promises. */
  lemma SkipIsUnique(s: string, n: nat)
    requires n <= |s| && AllSpace(s[..n])
    requires n < |s| ==> !IsSpace(s[n])
    ensures Skip(s) == n
  {
    var k := Skip(s);
    forall i | 0 <= i < n ensures IsSpace(s[i]) { assert s[..n][i] == s[i]; }
    forall i | 0 <= i < k ensures IsSpace(s[i]) { assert s[..k][i] == s[i]; }
  }

  lemma SkipReaches(s: string, n: nat)
    requires n <= |s| && AllSpace(s[..n])
    ensures Skip(s) >= n
  {
    forall i | 0 <= i < n ensures IsSpace(s[i]) { assert s[..n][i] == s[i]; }
  }
}
