/** Text taken apart at a character, and put together again. */
module Texts {
  function IndexOfChar(s: string, c: char): (i: nat)
    ensures i <= |s|
    ensures i < |s| ==> s[i] == c
    ensures forall j :: 0 <= j < i ==> s[j] != c
  {
    if s == "" then 0 else if s[0] == c then 0 else 1 + IndexOfChar(s[1..], c)
  }

  // strings.Split on one character.
  function Split(s: string, c: char): seq<string>
    decreases |s|
  {
    var i := IndexOfChar(s, c);
    if i == |s| then [s] else [s[..i]] + Split(s[i + 1..], c)
  }

  lemma SplitFirst(p: string, c: char, rest: string)
    requires c !in p
    ensures Split(p + [c] + rest, c) == [p] + Split(rest, c)
  {
    var s := p + [c] + rest;
    assert s[|p|] == c;
    var i := IndexOfChar(s, c);
    assert forall j :: 0 <= j < |p| ==> s[j] == p[j];
    assert s[..i] == p && s[i + 1..] == rest;
  }

  lemma SplitWhole(p: string, c: char)
    requires c !in p
    ensures Split(p, c) == [p]
  {
  }

  // strings.Join on one character.
  function Join(parts: seq<string>, c: char): string
    requires parts != []
  {
    if |parts| == 1 then parts[0] else parts[0] + [c] + Join(parts[1..], c)
  }

  lemma {:induction false} SplitJoin(parts: seq<string>, c: char)
    requires parts != [] && forall p :: p in parts ==> c !in p
    ensures Split(Join(parts, c), c) == parts
  {
    if |parts| == 1 {
      SplitWhole(parts[0], c);
    } else {
      SplitJoin(parts[1..], c);
      SplitFirst(parts[0], c, Join(parts[1..], c));
    }
  }

  // No piece holds the character, and together they are the text again.
  lemma {:induction false} PiecesArePlain(s: string, c: char)
    ensures forall p :: p in Split(s, c) ==> c !in p
    decreases |s|
  {
    var i := IndexOfChar(s, c);
    if i < |s| {
      PiecesArePlain(s[i + 1..], c);
    }
  }

  // A text with the character in it, taken apart at the first one.
  lemma Apart(s: string, c: char) returns (p: string, rest: string)
    requires c in s
    ensures s == p + [c] + rest && c !in p && |rest| < |s|
  {
    var i := IndexOfChar(s, c);
    p, rest := s[..i], s[i + 1..];
  }

  lemma {:induction false} JoinSplit(s: string, c: char)
    ensures Split(s, c) != [] && Join(Split(s, c), c) == s
    decreases |s|
  {
    if c !in s {
      SplitWhole(s, c);
    } else {
      var p, rest := Apart(s, c);
      JoinSplit(rest, c);
      JoinSplitStep(p, c, rest);
    }
  }

  lemma JoinSplitStep(p: string, c: char, rest: string)
    requires c !in p && Split(rest, c) != [] && Join(Split(rest, c), c) == rest
    ensures Split(p + [c] + rest, c) != [] && Join(Split(p + [c] + rest, c), c) == p + [c] + rest
  {
    SplitFirst(p, c, rest);
    JoinFirst(p, Split(rest, c), c);
  }

  lemma JoinFirst(p: string, parts: seq<string>, c: char)
    requires parts != []
    ensures Join([p] + parts, c) == p + [c] + Join(parts, c)
  {
    assert ([p] + parts)[1..] == parts;
  }

  // ----- the order a query sorts texts in -----

  predicate Less(a: string, b: string) {
    b != "" && (a == "" || a[0] < b[0] || (a[0] == b[0] && Less(a[1..], b[1..])))
  }

  lemma {:induction false} LessIsTotal(a: string, b: string)
    ensures a == b || Less(a, b) || Less(b, a)
  {
    if a != "" && b != "" && a[0] == b[0] {
      LessIsTotal(a[1..], b[1..]);
      assert a == [a[0]] + a[1..] && b == [b[0]] + b[1..];
    }
  }

  lemma {:induction false} LessIsStrict(a: string, b: string)
    requires Less(a, b)
    ensures a != b && !Less(b, a)
  {
    if a != "" && a[0] == b[0] { LessIsStrict(a[1..], b[1..]); }
  }

  lemma {:induction false} LessChains(a: string, b: string, c: string)
    requires Less(a, b) && Less(b, c)
    ensures Less(a, c)
  {
    if a != "" && a[0] == b[0] == c[0] { LessChains(a[1..], b[1..], c[1..]); }
  }

  predicate Ascending(s: seq<string>) { forall i, j :: 0 <= i < j < |s| ==> Less(s[i], s[j]) }

  // The least of a set, which comes first in any listing of it.
  predicate IsLeast(m: string, s: set<string>) { m in s && forall x :: x in s ==> x == m || Less(m, x) }

  lemma {:induction false} SomeIsLeast(s: set<string>) returns (m: string)
    requires s != {}
    ensures IsLeast(m, s)
    decreases s
  {
    m :| m in s;
    if s != {m} {
      var k := SomeIsLeast(s - {m});
      LessIsTotal(k, m);
      if Less(k, m) {
        m := k;
      } else {
        forall x | x in s ensures x == m || Less(m, x) {
          if x != m && x != k { LessChains(m, k, x); }
        }
      }
    }
  }

  // One more text, greater than those before it.
  lemma AscendingGrows(s: seq<string>, x: string)
    requires Ascending(s) && forall y :: y in s ==> Less(y, x)
    ensures Ascending(s + [x])
  {
  }

  lemma HasMember(t: seq<string>)
    ensures t != [] ==> exists x :: x in t
  {
    if t != [] { assert t[0] in t; }
  }

  // A set of texts is listed in order in one way only.
  lemma {:induction false} AscendingIsUnique(s: seq<string>, t: seq<string>)
    requires Ascending(s) && Ascending(t) && forall x :: x in s <==> x in t
    ensures s == t
  {
    HasMember(t);
    if s != [] {
      assert s[0] in s && s[0] in t;
      assert t != [] && t[0] in t && t[0] in s;
      assert s[0] == t[0] by {
        if s[0] != t[0] {
          assert Less(s[0], t[0]) && Less(t[0], s[0]);
          LessIsStrict(s[0], t[0]);
        }
      }
      forall x ensures x in s[1..] <==> x in t[1..] {
        TailHas(s, x);
        TailHas(t, x);
      }
      AscendingIsUnique(s[1..], t[1..]);
      assert s == [s[0]] + s[1..] && t == [t[0]] + t[1..];
    }
  }

  lemma TailHas(s: seq<string>, x: string)
    requires Ascending(s) && s != []
    ensures x in s[1..] <==> x in s && x != s[0]
  {
    if x in s[1..] {
      var i :| 0 < i < |s| && s[i] == x;
      LessIsStrict(s[0], s[i]);
    }
  }
}
