/** What a private domain, however it was typed, becomes as a zone. */
module ZoneTexts {
  import opened Names
  import opened ZoneRename

  predicate Spaces(s: string) { forall i :: 0 <= i < |s| ==> IsSpace(s[i]) }

  predicate Dots(s: string) { forall i :: 0 <= i < |s| ==> s[i] == '.' }

  lemma {:induction false} TrimLeftSkips(space: string, s: string)
    requires Spaces(space) && (s != "" ==> !IsSpace(s[0]))
    ensures TrimLeft(space + s) == s
  {
    if space == "" {
      assert space + s == s;
    } else {
      assert (space + s)[1..] == space[1..] + s;
      TrimLeftSkips(space[1..], s);
    }
  }

  lemma {:induction false} TrimRightSkips(s: string, space: string)
    requires Spaces(space) && (s != "" ==> !IsSpace(s[|s| - 1]))
    ensures TrimRight(s + space) == s
  {
    if space == "" {
      assert s + space == s;
    } else {
      var n := |space| - 1;
      assert (s + space)[..|s + space| - 1] == s + space[..n];
      TrimRightSkips(s, space[..n]);
    }
  }

  lemma {:induction false} LeadingDots(dots: string, s: string)
    requires Dots(dots)
    ensures TrimDots(dots + s) == TrimDots(s)
  {
    if dots == "" {
      assert dots + s == s;
    } else {
      assert (dots + s)[1..] == dots[1..] + s;
      LeadingDots(dots[1..], s);
    }
  }

  lemma {:induction false} TrailingDots(s: string, dots: string)
    requires Dots(dots) && s != "" && s[0] != '.' && s[|s| - 1] != '.'
    ensures TrimDots(s + dots) == s
  {
    if dots == "" {
      assert s + dots == s;
    } else {
      var n := |dots| - 1;
      assert (s + dots)[..|s + dots| - 1] == s + dots[..n];
      TrailingDots(s, dots[..n]);
    }
  }

  lemma LowerKeepsDots(dots: string)
    requires Dots(dots)
    ensures Lower(dots) == dots
  {
  }

  // Outer space and dots go, letters are lower, and one dot ends it.
  lemma SuffixExactly(before: string, dots: string, domain: string, more: string, after: string)
    requires Spaces(before) && Dots(dots) && Dots(more) && Spaces(after)
    requires domain != "" && domain[0] != '.' && domain[|domain| - 1] != '.'
    requires (dots == "" ==> !IsSpace(domain[0])) && (more == "" ==> !IsSpace(domain[|domain| - 1]))
    ensures ZoneSuffix(before + dots + domain + more + after) == Lower(domain) + "."
  {
    var inner := dots + domain + more;
    assert before + dots + domain + more + after == before + (inner + after);
    assert inner[0] == (if dots == "" then domain[0] else '.');
    assert inner[|inner| - 1] == (if more == "" then domain[|domain| - 1] else '.');
    TrimSpaceSkips(before, inner, after);
    LoweredTrims(dots, domain, more);
    hide *;
    SuffixIs(before + (inner + after), inner, Lower(domain));
  }

  lemma SuffixIs(typed: string, inner: string, d: string)
    requires TrimSpace(typed) == inner && TrimDots(Lower(inner)) == d && d != ""
    ensures ZoneSuffix(typed) == d + "."
  {
    hide TrimSpace, TrimDots, Lower;
  }

  lemma TrimSpaceSkips(before: string, s: string, after: string)
    requires Spaces(before) && Spaces(after) && s != "" && !IsSpace(s[0]) && !IsSpace(s[|s| - 1])
    ensures TrimSpace(before + (s + after)) == s
  {
    TrimLeftSkips(before, s + after);
    TrimRightSkips(s, after);
  }

  lemma LoweredTrims(dots: string, domain: string, more: string)
    requires Dots(dots) && Dots(more) && domain != "" && domain[0] != '.' && domain[|domain| - 1] != '.'
    ensures TrimDots(Lower(dots + domain + more)) == Lower(domain) != ""
  {
    LowerConcat(dots + domain, more);
    LowerConcat(dots, domain);
    LowerKeepsDots(dots);
    LowerKeepsDots(more);
    assert dots + Lower(domain) + more == dots + (Lower(domain) + more);
    LeadingDots(dots, Lower(domain) + more);
    TrailingDots(Lower(domain), more);
  }

  // A text of nothing else is no zone.
  lemma NothingIsNoZone(before: string, dots: string, after: string)
    requires Spaces(before) && Dots(dots) && Spaces(after) && (dots == "" ==> after == "")
    ensures ZoneSuffix(before + dots + after) == ""
  {
    assert before + dots + after == before + (dots + after);
    TrimLeftSkips(before, dots + after);
    TrimRightSkips(dots, after);
    LowerKeepsDots(dots);
    LeadingDots(dots, "");
    assert dots + "" == dots;
  }
}
