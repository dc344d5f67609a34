/** The `short` display helper of the invoice view. */
module Format {

  /**
   * `short`, with its defaults "" and 80: the text itself when it has at most `n`
   * characters, otherwise its first `n` characters followed by "...".
   */
  function Short(s: string := "", n: nat := 80): (r: string)
    ensures |s| <= n ==> r == s
    ensures |s| > n ==> |r| == n + 3 && r[..n] == s[..n] && r[n..] == "..."
  {
    if |s| > n then s[..n] + "..." else s
  }

  /** The shortened text always starts with as much of the original as fits. */
  lemma ShortKeepsPrefix(s: string, n: nat)
    ensures var m := if |s| <= n then |s| else n;
      m <= |Short(s, n)| && Short(s, n)[..m] == s[..m]
    ensures |Short(s, n)| <= n + 3
  {
  }

  /** Shortening twice with the same bound gives the same text as shortening once. */
  lemma ShortIdempotent(s: string, n: nat)
    ensures Short(Short(s, n), n) == Short(s, n)
  {
    if |s| > n {
      var r := Short(s, n);
      assert r[..n] == s[..n];
      assert (s[..n] + "...")[..n] == s[..n];
    }
  }
}
