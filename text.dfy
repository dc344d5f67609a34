/**
 * The string primitives the invoice view relies on: `trim`, `toLowerCase` and
 * `includes`. Strings are sequences of code points.
 *
 * `IsWhite` is the set of characters ECMAScript's `String.prototype.trim`
 * removes (its WhiteSpace and LineTerminator productions). `LowerChar` only
 * maps the ASCII letters A-Z; the full Unicode case mapping of `toLowerCase`
 * is not modelled.
 */
module Text {

  predicate IsWhite(c: char) {
    || c == '\t' || c == '\n' || c == '\U{000B}' || c == '\U{000C}' || c == '\r' || c == ' '
    || c == '\U{00A0}' || c == '\U{1680}' || ('\U{2000}' <= c <= '\U{200A}')
    || c == '\U{2028}' || c == '\U{2029}' || c == '\U{202F}' || c == '\U{205F}'
    || c == '\U{3000}' || c == '\U{FEFF}'
  }

  predicate IsUpper(c: char) {
    'A' <= c <= 'Z'
  }

  /** Lower-cases one character (ASCII letters only). */
  function LowerChar(c: char): (d: char)
    ensures !IsUpper(d)
    ensures IsUpper(c) ==> d as int == c as int + 32
    ensures !IsUpper(c) ==> d == c
    ensures IsWhite(d) <==> IsWhite(c)
  {
    if IsUpper(c) then (c as int + 32) as char else c
  }

  /** `s.toLowerCase()` in the ASCII model. */
  function Lower(s: string): (r: string)
    ensures |r| == |s|
    ensures forall i :: 0 <= i < |s| ==> r[i] == LowerChar(s[i])
  {
    seq(|s|, i requires 0 <= i < |s| => LowerChar(s[i]))
  }

  /** Drops leading white space. */
  function TrimStart(s: string): (r: string)
    ensures |r| <= |s| && r == s[|s| - |r|..]
    ensures forall i :: 0 <= i < |s| - |r| ==> IsWhite(s[i])
    ensures r == [] || !IsWhite(r[0])
    decreases |s|
  {
    if s != [] && IsWhite(s[0]) then TrimStart(s[1..]) else s
  }

  /** Drops trailing white space. */
  function TrimEnd(s: string): (r: string)
    ensures |r| <= |s| && r == s[..|r|]
    ensures forall i :: |r| <= i < |s| ==> IsWhite(s[i])
    ensures r == [] || !IsWhite(r[|r| - 1])
    decreases |s|
  {
    if s != [] && IsWhite(s[|s| - 1]) then TrimEnd(s[..|s| - 1]) else s
  }

  /** `s.trim()`. */
  function Trim(s: string): (r: string)
    ensures |r| <= |s|
    ensures r == [] || (!IsWhite(r[0]) && !IsWhite(r[|r| - 1]))
  {
    TrimEnd(TrimStart(s))
  }

  /** The trimmed text is a slice of the input with only white space cut off either end. */
  lemma TrimIsSlice(s: string) returns (start: nat)
    ensures start + |Trim(s)| <= |s| && Trim(s) == s[start..start + |Trim(s)|]
    ensures forall i :: 0 <= i < start ==> IsWhite(s[i])
    ensures forall i :: start + |Trim(s)| <= i < |s| ==> IsWhite(s[i])
    ensures Trim(s) == [] || (!IsWhite(Trim(s)[0]) && !IsWhite(Trim(s)[|Trim(s)| - 1]))
  {
    var t := TrimStart(s);
    start := |s| - |t|;
    SliceOfSuffix(s, t, TrimEnd(t), start);
  }

  /** Cutting white space off the end of a suffix that starts at `start`. */
  lemma SliceOfSuffix(s: string, t: string, r: string, start: nat)
    requires start <= |s| && t == s[start..]
    requires r == TrimEnd(t)
    ensures start + |r| <= |s| && r == s[start..start + |r|]
    ensures forall i :: start + |r| <= i < |s| ==> IsWhite(s[i])
    ensures r != [] ==> r[0] == t[0]
  {
    forall i | start + |r| <= i < |s|
      ensures IsWhite(s[i])
    {
      assert s[i] == t[i - start];
    }
  }

  /** A string trims to empty exactly when it is all white space. */
  lemma TrimEmptyIff(s: string)
    ensures Trim(s) == [] <==> forall i :: 0 <= i < |s| ==> IsWhite(s[i])
  {
    var start := TrimIsSlice(s);
    if Trim(s) != [] {
      assert Trim(s)[0] == s[start] && !IsWhite(s[start]);
    }
  }

  lemma {:induction false} LowerTrimStart(s: string)
    ensures Lower(TrimStart(s)) == TrimStart(Lower(s))
    decreases |s|
  {
    if s != [] && IsWhite(s[0]) {
      assert Lower(s)[1..] == Lower(s[1..]);
      LowerTrimStart(s[1..]);
    }
  }

  lemma {:induction false} LowerTrimEnd(s: string)
    ensures Lower(TrimEnd(s)) == TrimEnd(Lower(s))
    decreases |s|
  {
    if s != [] && IsWhite(s[|s| - 1]) {
      assert Lower(s)[..|s| - 1] == Lower(s[..|s| - 1]);
      LowerTrimEnd(s[..|s| - 1]);
    }
  }

  /** Trimming and lower-casing commute. */
  lemma LowerTrimCommute(s: string)
    ensures Lower(Trim(s)) == Trim(Lower(s))
  {
    LowerTrimStart(s);
    LowerTrimEnd(TrimStart(s));
  }

  /** An independent reading of `includes`: `n` occurs at some offset in `h`. */
  ghost predicate OccursIn(n: string, h: string) {
    exists i :: OccursAt(n, h, i)
  }

  ghost predicate OccursAt(n: string, h: string, i: int) {
    0 <= i <= |h| - |n| && h[i..i + |n|] == n
  }

  /** `h.includes(n)`: every empty string is included, including in `""`. */
  predicate Contains(h: string, n: string)
    ensures n == [] ==> Contains(h, n)
    ensures Contains(h, n) ==> |n| <= |h|
    decreases |h|
  {
    if |n| <= |h| && h[..|n|] == n then true
    else if h == [] then false
    else Contains(h[1..], n)
  }

  lemma {:induction false} ContainsIffOccurs(h: string, n: string)
    ensures Contains(h, n) <==> OccursIn(n, h)
    decreases |h|
  {
    if |n| <= |h| && h[..|n|] == n {
      assert OccursAt(n, h, 0);
    } else if h == [] {
    } else {
      ContainsIffOccurs(h[1..], n);
      if OccursIn(n, h) {
        var i :| OccursAt(n, h, i);
        assert i != 0;
        assert h[1..][i - 1..i - 1 + |n|] == n;
        assert OccursAt(n, h[1..], i - 1);
      }
      if OccursIn(n, h[1..]) {
        var i :| OccursAt(n, h[1..], i);
        assert h[i + 1..i + 1 + |n|] == n;
        assert OccursAt(n, h, i + 1);
      }
    }
  }
}
