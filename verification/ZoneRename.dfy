/** Renaming the private zone: how one name moves, and which hosts follow it. */
module ZoneRename {
  import opened Names
  import opened ZoneIndex

  // ----- moving one name -----

  predicate Inside(n: string, zone: string) {
    n == zone || EndsWith(n, "." + zone)
  }

  // The same place in the other zone; a name outside the zone stays where it is.
  function Move(n: string, from: string, to: string): string {
    if Inside(n, from) then n[..|n| - |from|] + to else n
  }

  function WithDot(n: string): string {
    if EndsWith(n, ".") then n else n + "."
  }

  function RenameInZone(name: string, from: string, to: string): (string, bool) {
    if from == "" || to == "" || from == to then (name, false)
    else
      var n := Lower(TrimSpace(name));
      if n == "" then (name, false)
      else if WithDot(n) == from then (to, true)
      else if EndsWith(WithDot(n), "." + from) then (TrimSuffix(WithDot(n), from) + to, true)
      else (name, false)
  }

  // A domain as it is compared with names: lower case, dots trimmed, one at the end.
  function TrimDots(s: string): string {
    if s != "" && s[0] == '.' then TrimDots(s[1..])
    else if s != "" && s[|s| - 1] == '.' then TrimDots(s[..|s| - 1])
    else s
  }

  function ZoneSuffix(domain: string): string {
    var d := TrimDots(Lower(TrimSpace(domain)));
    if d == "" then "" else d + "."
  }

  // A zone a node can serve.
  predicate IsZone(z: string) { Normal(z) && z != "." }

  lemma InsideParts(n: string, zone: string)
    requires Inside(n, zone)
    ensures EndsWith(n, zone) && |zone| <= |n| && n == n[..|n| - |zone|] + zone
    ensures n != zone ==> |n| > |zone| && n[|n| - |zone| - 1] == '.'
  {
    if n != zone {
      var k := |n| - |zone| - 1;
      assert n[k..] == "." + zone;
      assert n[k..][1..] == n[k + 1..];
    }
  }

  lemma PrefixedIsInside(p: string, zone: string)
    requires p == "" || p[|p| - 1] == '.'
    ensures Inside(p + zone, zone)
  {
    if p != "" {
      assert (p + zone)[|p| - 1..] == "." + zone;
    } else {
      assert p + zone == zone;
    }
  }

  lemma MoveLands(n: string, from: string, to: string)
    requires Inside(n, from)
    ensures Inside(Move(n, from, to), to)
    ensures Move(n, from, to)[..|Move(n, from, to)| - |to|] == n[..|n| - |from|]
  {
    InsideParts(n, from);
    var p := n[..|n| - |from|];
    if p != "" { assert p[|p| - 1] == n[|n| - |from| - 1]; }
    PrefixedIsInside(p, to);
  }

  // Moving there and back is the identity on names of the zone.
  lemma MoveBack(n: string, from: string, to: string)
    requires Inside(n, from)
    ensures Move(Move(n, from, to), to, from) == n
  {
    MoveLands(n, from, to);
    InsideParts(n, from);
  }

  // Names the rename can tell apart: those of the old zone, and those of neither.
  predicate Settled(n: string, from: string, to: string) {
    Inside(n, from) || !Inside(n, to)
  }

  lemma MoveIsInjective(n: string, m: string, from: string, to: string)
    requires Settled(n, from, to) && Settled(m, from, to) && Move(n, from, to) == Move(m, from, to)
    ensures n == m
  {
    if Inside(n, from) { MoveBack(n, from, to); MoveLands(n, from, to); }
    if Inside(m, from) { MoveBack(m, from, to); MoveLands(m, from, to); }
  }

  lemma MoveKeepsNormal(n: string, from: string, to: string)
    requires Normal(n) && IsZone(to)
    ensures Normal(Move(n, from, to))
  {
    if Inside(n, from) {
      InsideParts(n, from);
      var p := n[..|n| - |from|];
      LowerConcat(p, to);
      LowerConcat(p, from);
      assert Lower(p) == p by {
        forall i | 0 <= i < |p| ensures Lower(p)[i] == p[i] { assert p[i] == n[i] == Lower(n)[i]; }
      }
    }
  }

  // RenameInZone is Move on names as they are stored, and reports whether it moved.
  lemma RenameIsMove(n: string, from: string, to: string)
    requires Normal(n) && from != "" && to != "" && from != to
    ensures RenameInZone(n, from, to) == (Move(n, from, to), Inside(n, from))
  {
    NormalIsFixed(n);
    if Inside(n, from) { InsideParts(n, from); }
    if n == from { assert n[..0] + to == to; }
  }

  lemma {:induction false} TrimLeftStarts(s: string)
    ensures TrimLeft(s) != "" ==> !IsSpace(TrimLeft(s)[0])
  {
    if s != "" && IsSpace(s[0]) { TrimLeftStarts(s[1..]); }
  }

  lemma {:induction false} TrimRightStarts(s: string)
    ensures TrimRight(s) != "" ==> s != "" && TrimRight(s)[0] == s[0]
  {
    if s != "" && IsSpace(s[|s| - 1]) { TrimRightStarts(s[..|s| - 1]); }
  }

  lemma StoredForm(name: string)
    requires Lower(TrimSpace(name)) != ""
    ensures Normal(WithDot(Lower(TrimSpace(name))))
  {
    TrimLeftStarts(name);
    TrimRightStarts(TrimLeft(name));
    var n := Lower(TrimSpace(name));
    if EndsWith(n, ".") { assert n[|n| - 1..][0] == n[|n| - 1]; }
  }

  // Whatever the spelling, a moved name lands in the new zone, and the reverse rename
  // gives back its stored form.
  lemma RenameIsUndone(name: string, from: string, to: string)
    requires IsZone(from) && IsZone(to)
    requires RenameInZone(name, from, to).1
    ensures Inside(RenameInZone(name, from, to).0, to)
    ensures RenameInZone(RenameInZone(name, from, to).0, to, from) == (WithDot(Lower(TrimSpace(name))), true)
  {
    var n := WithDot(Lower(TrimSpace(name)));
    StoredForm(name);
    RenameIsMove(n, from, to);
    NormalIsFixed(n);
    if Inside(n, from) { InsideParts(n, from); }
    if n == from { assert n[..0] + to == to; }
    assert RenameInZone(name, from, to).0 == Move(n, from, to);
    MoveLands(n, from, to);
    MoveBack(n, from, to);
    MoveKeepsNormal(n, from, to);
    RenameIsMove(Move(n, from, to), to, from);
  }

  // Two names that were in the zone end up equal only if they were one name.
  lemma RenameIsInjective(a: string, b: string, from: string, to: string)
    requires IsZone(from) && IsZone(to)
    requires RenameInZone(a, from, to).1 && RenameInZone(b, from, to).1
    requires RenameInZone(a, from, to).0 == RenameInZone(b, from, to).0
    ensures WithDot(Lower(TrimSpace(a))) == WithDot(Lower(TrimSpace(b)))
  {
    RenameIsUndone(a, from, to);
    RenameIsUndone(b, from, to);
  }

  // ----- hosts, which are qualified anew -----

  function HostText(host: string): string { Lower(TrimSuffix(host, ".")) + "." }

  // The host's own text, dot added, does not already end like either zone.
  predicate PlainHost(host: string, from: string, to: string) {
    !EndsWith(HostText(host), from) && !EndsWith(HostText(host), to)
  }

  // The one other way a host's name survives: its text ends like both zones without
  // lying inside the old one, so it is taken for qualified before and after.
  predicate DoublyTaken(host: string, from: string, to: string) {
    EndsWith(HostText(host), from) && EndsWith(HostText(host), to) && !Inside(HostText(host), from)
  }

  // Qualifying a host in the new zone is moving its old name exactly for these hosts.
  lemma HostFollowsExactly(host: string, from: string, to: string)
    requires IsZone(from) && IsZone(to) && from != to
    ensures Qualify(host, to) == Move(Qualify(host, from), from, to) <==>
      PlainHost(host, from, to) || DoublyTaken(host, from, to)
  {
    var q := HostText(host);
    if !EndsWith(q, from) {
      PrefixedIsInside(q, from);
      EndsWithOwn(q, from);
      assert Move(q + from, from, to) == q + to;
      assert |q + to| > |q|;
    } else if Inside(q, from) {
      InsideParts(q, from);
      var p := q[..|q| - |from|];
      assert Move(q, from, to) == p + to;
      assert |q + to| == |p| + |from| + |to| > |p + to|;
    } else {
      assert |q + to| > |q|;
    }
  }

  // The hosts a rename carries along without landing one on a name already in the new zone.
  predicate HostFollows(host: string, from: string, to: string) {
    PlainHost(host, from, to) || (DoublyTaken(host, from, to) && !Inside(HostText(host), to))
  }

  // They are exactly those whose name moves as it should and is one the rename can tell
  // apart from every other.
  lemma SettledHostsExactly(host: string, from: string, to: string)
    requires IsZone(from) && IsZone(to) && from != to
    ensures HostFollows(host, from, to) <==>
      Qualify(host, to) == Move(Qualify(host, from), from, to) && Settled(Qualify(host, from), from, to)
  {
    HostFollowsExactly(host, from, to);
    PrefixedIsInside(HostText(host), from);
  }

  // Host "vlan" is taken for a name of zone "lan" and left behind by a rename.
  lemma TextSuffixIsLeftBehind()
    ensures Qualify("vlan", "lan.") == "vlan." && Qualify("vlan", "home.") == "vlan.home."
    ensures Move("vlan.", "lan.", "home.") == "vlan."
  {
    VlanIsLower();
    VlanEndsLikeLan();
    VlanIsOutside();
    assert "vlan" + "." == "vlan." && "vlan" + "." + "home." == "vlan.home.";
  }

  lemma VlanIsLower()
    ensures Lower(TrimSuffix("vlan", ".")) == "vlan"
  {
    assert "vlan"[3..] != ".";
    assert Lower("vlan") == "vlan";
  }

  lemma VlanEndsLikeLan()
    ensures EndsWith("vlan.", "lan.") && !EndsWith("vlan.", "home.")
  {
    assert "vlan."[1..] == "lan.";
    assert "vlan."[0] == 'v';
  }

  lemma VlanIsOutside()
    ensures !Inside("vlan.", "lan.")
  {
    assert "vlan."[0] != '.' && "." + "lan." == ".lan.";
  }
}
