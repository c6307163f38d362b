/** Domain names as text: ASCII case, suffixes and the trailing dot. */
module Names {
  function LowerChar(c: char): char {
    if 'A' <= c <= 'Z' then (c as int + 32) as char else c
  }

  function Lower(s: string): (r: string)
    ensures |r| == |s|
    ensures forall i :: 0 <= i < |s| ==> r[i] == LowerChar(s[i])
  {
    seq(|s|, i requires 0 <= i < |s| => LowerChar(s[i]))
  }

  predicate EndsWith(s: string, t: string) {
    |t| <= |s| && s[|s| - |t|..] == t
  }

  // strings.TrimSuffix.
  function TrimSuffix(s: string, t: string): string {
    if EndsWith(s, t) then s[..|s| - |t|] else s
  }

  // dns.Fqdn, for names without escapes.
  function Fqdn(s: string): string {
    if EndsWith(s, ".") then s else s + "."
  }

  lemma LowerTwice(s: string)
    ensures Lower(Lower(s)) == Lower(s)
  {
  }

  lemma LowerConcat(s: string, t: string)
    ensures Lower(s + t) == Lower(s) + Lower(t)
  {
  }

  predicate IsSpace(c: char) { c == ' ' || '\t' <= c <= '\r' }

  function TrimLeft(s: string): string {
    if s != "" && IsSpace(s[0]) then TrimLeft(s[1..]) else s
  }

  function TrimRight(s: string): string {
    if s != "" && IsSpace(s[|s| - 1]) then TrimRight(s[..|s| - 1]) else s
  }

  // strings.TrimSpace, for ASCII.
  function TrimSpace(s: string): string { TrimRight(TrimLeft(s)) }

  // The form names are stored in: lower case, no outer space, one dot at the end.
  predicate Normal(n: string) {
    n != "" && Lower(n) == n && !IsSpace(n[0]) && n[|n| - 1] == '.'
  }

  lemma NormalIsFixed(n: string)
    requires Normal(n)
    ensures TrimSpace(n) == n && Fqdn(n) == n && EndsWith(n, ".")
  {
    assert n[|n| - 1..] == ".";
  }

  // Two suffixes of one text: the shorter is a suffix of the longer.
  lemma SuffixesNest(s: string, t: string, u: string)
    requires EndsWith(s, t) && EndsWith(s, u) && |t| <= |u|
    ensures EndsWith(u, t)
  {
    assert u == s[|s| - |u|..];
    assert u[|u| - |t|..] == s[|s| - |t|..];
  }

  lemma EndsWithOwn(p: string, t: string)
    ensures EndsWith(p + t, t) && (p + t)[..|p + t| - |t|] == p
  {
  }
}
