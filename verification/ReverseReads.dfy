/** Which names are read as reverse names: those printed for an address, and, as long as
    every label is a plain one, no others. */
module ReverseReads {
  import opened Wrappers
  import opened Net
  import opened Names
  import opened Texts
  import opened Arpa
  import opened ReverseNames

  // ----- digits -----

  lemma DigitBack(c: char)
    requires DigitOf(c).Some? && !('A' <= c <= 'F')
    ensures DigitOf(c).value < 16 && DigitChar(DigitOf(c).value) == c
  {
  }

  lemma {:induction false} NumberDigits(s: string, base: nat, i: nat)
    requires Number(s, base).Some? && i < |s|
    ensures DigitOf(s[i]).Some? && DigitOf(s[i]).value < base
  {
    if i < |s| - 1 { NumberDigits(s[..|s| - 1], base, i); }
  }

  lemma DecimalOf2(a: nat, b: nat)
    requires 1 <= a < 10 && b < 10
    ensures Decimal(a * 10 + b) == [DigitChar(a), DigitChar(b)]
  {
    assert (a * 10 + b) / 10 == a && (a * 10 + b) % 10 == b;
  }

  lemma DecimalOf3(a: nat, b: nat, c: nat)
    requires 1 <= a < 10 && b < 10 && c < 10 && (a * 10 + b) * 10 + c < 256
    ensures Decimal((a * 10 + b) * 10 + c) == [DigitChar(a), DigitChar(b), DigitChar(c)]
  {
    var v := (a * 10 + b) * 10 + c;
    assert v / 10 == a * 10 + b && v % 10 == c && v / 100 == a && (a * 10 + b) % 10 == b;
  }

  // A decimal field is the one way its number prints.
  lemma ByteBack(s: string)
    requires ByteField(s).Some?
    ensures ByteField(s).value < 256 && s == Decimal(ByteField(s).value)
  {
    forall i: nat | i < |s|
      ensures DigitOf(s[i]).Some? && DigitOf(s[i]).value < 10 && DigitChar(DigitOf(s[i]).value) == s[i] {
      NumberDigits(s, 10, i);
      DigitBack(s[i]);
    }
    var a := DigitOf(s[0]).value;
    assert a == 0 ==> s[0] == '0';
    if |s| == 1 {
      NumberGrows("", s[0], 10);
      assert "" + [s[0]] == s;
      assert ByteField(s) == Some(a);
    } else if |s| == 2 {
      TwoDigitsBack(s, a, DigitOf(s[1]).value);
    } else {
      ThreeDigitsBack(s, a, DigitOf(s[1]).value, DigitOf(s[2]).value);
    }
  }

  lemma TwoDigitsBack(s: string, a: nat, b: nat)
    requires 1 <= a < 10 && b < 10 && s == [DigitChar(a), DigitChar(b)] && ByteField(s).Some?
    ensures ByteField(s).value < 256 && s == Decimal(ByteField(s).value)
  {
    Digits2(a, b, 10);
    DecimalOf2(a, b);
    hide Number, Decimal;
  }

  lemma ThreeDigitsBack(s: string, a: nat, b: nat, c: nat)
    requires 1 <= a < 10 && b < 10 && c < 10 && s == [DigitChar(a), DigitChar(b), DigitChar(c)] && ByteField(s).Some?
    ensures ByteField(s).value < 256 && s == Decimal(ByteField(s).value)
  {
    Digits3(a, b, c, 10);
    assert (a * 10 + b) * 10 + c == ByteField(s).value by { hide Decimal; }
    DecimalOf3(a, b, c);
    hide Number, Decimal;
  }

  lemma QuadFields(back: seq<string>)
    requires |back| == 4 && ParseQuad(back).Some?
    ensures ParseQuad(back).value.V4?
    ensures ByteParts(ParseQuad(back).value.v4) == [back[3], back[2], back[1], back[0]]
  {
    ByteBack(back[0]);
    ByteBack(back[1]);
    ByteBack(back[2]);
    ByteBack(back[3]);
    BytesOf(ByteField(back[0]).value, ByteField(back[1]).value, ByteField(back[2]).value, ByteField(back[3]).value);
    hide ByteField, Decimal;
  }

  lemma QuadBack(body: string)
    requires FromQuad(body).Some?
    ensures FromQuad(body).value.V4? && body == Join(ByteParts(FromQuad(body).value.v4), '.')
  {
    var p := Split(body, '.');
    var back := [p[3], p[2], p[1], p[0]];
    PiecesArePlain(body, '.');
    JoinSplit(body, '.');
    SplitJoin(back, '.');
    assert Join(back, '.')[|p[3]|] == '.';
    hide ParseQuad, Split, Join, ByteParts;
    QuadFields(back);
    assert p == [p[0], p[1], p[2], p[3]];
  }

  // ----- pieces -----

  lemma SliceKeepsCase(s: string, i: nat, j: nat)
    requires NoUpper(s) && i <= j <= |s|
    ensures NoUpper(s[i..j])
  {
    forall c | c in s[i..j] ensures c in s {
      var k :| 0 <= k < j - i && s[i..j][k] == c;
      assert s[i + k] == c;
    }
  }

  lemma {:induction false} PiecesKeepCase(s: string, c: char)
    requires NoUpper(s)
    ensures forall p :: p in Split(s, c) ==> NoUpper(p)
    decreases |s|
  {
    var i := IndexOfChar(s, c);
    SliceKeepsCase(s, 0, i);
    if i < |s| {
      SliceKeepsCase(s, i + 1, |s|);
      assert s[i + 1..] == s[i + 1..|s|] && s[..i] == s[0..i];
      PiecesKeepCase(s[i + 1..], c);
    }
  }

  // ----- nibbles -----

  predicate IsNibble(p: string) { |p| == 1 && DigitOf(p[0]).Some? && NoUpper(p) }

  predicate AreNibbles(nib: seq<string>) { forall i :: 0 <= i < |nib| ==> IsNibble(nib[i]) }

  function Spelled(nib: seq<string>): nat
    requires AreNibbles(nib)
  {
    if nib == [] then 0 else DigitOf(nib[0][0]).value + 16 * Spelled(nib[1..])
  }

  lemma DigitFirst(d: nat, rest: nat)
    requires d < 16
    ensures (d + 16 * rest) % 16 == d && (d + 16 * rest) / 16 == rest
  {
  }

  lemma {:induction false} NibblesBack(nib: seq<string>)
    requires AreNibbles(nib)
    ensures NibbleParts(Spelled(nib), |nib|) == nib && Spelled(nib) < Pow16(|nib|)
  {
    if nib != [] {
      NibblesBack(nib[1..]);
      assert nib[0][0] in nib[0];
      DigitBack(nib[0][0]);
      var d, rest := DigitOf(nib[0][0]).value, Spelled(nib[1..]);
      DigitFirst(d, rest);
      assert nib == [nib[0]] + nib[1..] && nib[0] == [nib[0][0]];
    }
  }

  lemma {:induction false} GroupsArePowers(k: nat)
    ensures Pow16(4 * k) == Groups(k)
  {
    if k > 0 {
      GroupsArePowers(k - 1);
      assert Pow16(4 * k) == 16 * Pow16(4 * k - 1) == 256 * Pow16(4 * k - 2) == 4096 * Pow16(4 * k - 3);
    }
  }

  lemma {:induction false} EachGroupReads(groups: seq<string>)
    requires GroupsValue(groups).Some?
    ensures forall g :: g in groups ==> GroupField(g).Some?
  {
    if groups != [] { EachGroupReads(groups[..|groups| - 1]); }
  }

  lemma OneGroup(nib: seq<string>)
    requires |nib| >= 4 && nib[0] != "" && nib[1] != "" && nib[2] != "" && nib[3] != ""
    requires GroupField(Low(nib)).Some?
    ensures forall i :: 0 <= i < 4 ==> |nib[i]| == 1 && DigitOf(nib[i][0]).Some?
  {
    var low := Low(nib);
    assert |low| == |nib[0]| + |nib[1]| + |nib[2]| + |nib[3]|;
    assert low[0] == nib[3][0] && low[1] == nib[2][0] && low[2] == nib[1][0] && low[3] == nib[0][0];
    NumberDigits(low, 16, 0);
    NumberDigits(low, 16, 1);
    NumberDigits(low, 16, 2);
    NumberDigits(low, 16, 3);
  }

  lemma {:induction false} GroupsOfNibbles(nib: seq<string>, k: nat)
    requires |nib| == 4 * k && forall i :: 0 <= i < |nib| ==> nib[i] != ""
    requires forall g :: g in GroupParts(nib, k) ==> GroupField(g).Some?
    ensures forall i :: 0 <= i < |nib| ==> |nib[i]| == 1 && DigitOf(nib[i][0]).Some?
  {
    if k > 0 {
      var groups := GroupParts(nib, k);
      assert Low(nib) == groups[k - 1] && groups[k - 1] in groups;
      OneGroup(nib);
      assert forall g :: g in GroupParts(nib[4..], k - 1) ==> g in groups;
      GroupsOfNibbles(nib[4..], k - 1);
    }
  }

  // Something stands in the label, and neither of the signs that mean more to an address
  // parser than a digit that is none.
  predicate PlainLabel(p: string) { p != "" && ':' !in p && '%' !in p }

  predicate PlainLabels(labels: seq<string>) { forall p :: p in labels ==> PlainLabel(p) }

  lemma ReadNibbles(nib: seq<string>)
    requires |nib| == 32 && forall p :: p in nib ==> PlainLabel(p) && '.' !in p && NoUpper(p)
    requires ParseAddr(Join(GroupParts(nib, 8), ':')).Some?
    ensures AreNibbles(nib)
  {
    hide GroupField, GroupsValue, NoUpper, GroupParts;
    var groups := GroupParts(nib, 8);
    GroupPartsPlain(nib, 8);
    JoinAvoids(groups, ':', '.');
    SplitJoin(groups, ':');
    hide Split, Join, ParseAddr;
    EachGroupReads(groups);
    GroupsOfNibbles(nib, 8);
    forall i | 0 <= i < |nib| ensures NoUpper(nib[i]) { assert nib[i] in nib; }
  }

  lemma AddressOf(nib: seq<string>) returns (v: U128)
    requires AreNibbles(nib) && |nib| == 32
    ensures NibbleParts(v, 32) == nib
  {
    NibblesBack(nib);
    GroupsArePowers(8);
    EightGroups();
    hide *;
    v := Spelled(nib);
  }

  lemma HexBack(body: string)
    requires NoUpper(body) && FromNibbles(body).Some? && PlainLabels(Split(body, '.'))
    ensures FromNibbles(body).value.V6? && body == Join(NibbleParts(FromNibbles(body).value.v6, 32), '.')
  {
    var nib := Split(body, '.');
    PiecesArePlain(body, '.');
    PiecesKeepCase(body, '.');
    JoinSplit(body, '.');
    hide ParseAddr, Join, Split, GroupParts, NibbleParts, NoUpper, PlainLabel, AreNibbles;
    ReadNibbles(nib);
    var v := AddressOf(nib);
    GroupTextReads(v);
  }

  // ----- whole names -----

  // A name as it is read: in lower case, without the dot at the end.
  function AsRead(name: string): string { TrimSuffix(Lower(name), ".") }

  // What an address is printed as, without that dot, in the family it is given in.
  function Printed(a: Addr): string
    requires a != NoAddr
  {
    match a
    case V4(v) => Join(ByteParts(v), '.') + ".in-addr.arpa"
    case V6(v) => Join(NibbleParts(v, 32), '.') + ".ip6.arpa"
  }

  // Names that are the same that way are read the same.
  lemma SameRead(name: string, other: string)
    requires AsRead(name) == AsRead(other)
    ensures AddrFromArpa(name) == AddrFromArpa(other)
  {
    hide FromQuad, FromNibbles, TrimSuffix, EndsWith, Lower;
  }

  lemma PrintedReads(name: string, a: Addr)
    requires a != NoAddr && AsRead(name) == Printed(a)
    ensures AddrFromArpa(name) == Some(a)
  {
    hide AsRead, AddrFromArpa, Join, ByteParts, NibbleParts;
    match a
    case V4(v) => QuadReads(name, v);
    case V6(v) => HexReads(name, v);
  }

  lemma PrintedAsRead(q: string)
    requires NoUpper(q)
    ensures AsRead(q + ".in-addr.arpa.") == q + ".in-addr.arpa" && AsRead(q + ".ip6.arpa.") == q + ".ip6.arpa"
  {
    TrimPrinted(q, ".in-addr.arpa");
    TrimPrinted(q, ".ip6.arpa");
    hide Lower, TrimSuffix, NoUpper;
    Dotted(q, ".in-addr.arpa", ".in-addr.arpa.");
    Dotted(q, ".ip6.arpa", ".ip6.arpa.");
  }

  lemma QuadReads(name: string, v: U32)
    requires AsRead(name) == Join(ByteParts(v), '.') + ".in-addr.arpa"
    ensures AddrFromArpa(name) == Some(V4(v))
  {
    var q := Join(ByteParts(v), '.');
    ArpaV4Reads(v);
    V4Name(v);
    BytePartsRead(v);
    JoinNoUpper(ByteParts(v), '.');
    hide *;
    PrintedAsRead(q);
    SameRead(name, q + ".in-addr.arpa.");
  }

  lemma HexReads(name: string, v: U128)
    requires AsRead(name) == Join(NibbleParts(v, 32), '.') + ".ip6.arpa"
    ensures AddrFromArpa(name) == Some(V6(v))
  {
    var q := Join(NibbleParts(v, 32), '.');
    ArpaV6Reads(v);
    NibblePartsPlain(v, 32);
    JoinNoUpper(NibbleParts(v, 32), '.');
    hide *;
    PrintedAsRead(q);
    SameRead(name, q + ".ip6.arpa.");
  }

  lemma V4Name(v: U32)
    ensures ArpaName(V4(v)) == Join(ByteParts(v), '.') + ".in-addr.arpa."
  {
  }

  lemma Dotted(q: string, suffix: string, dotted: string)
    requires dotted == suffix + "."
    ensures q + suffix + "." == q + dotted
  {
  }

  // What stands before the suffix, label by label.
  function Labels(name: string): seq<string> {
    var n := AsRead(name);
    if EndsWith(n, ".in-addr.arpa") then Split(TrimSuffix(n, ".in-addr.arpa"), '.')
    else Split(TrimSuffix(n, ".ip6.arpa"), '.')
  }

  lemma SuffixBack(n: string, suffix: string)
    requires EndsWith(n, suffix)
    ensures TrimSuffix(n, suffix) + suffix == n
  {
  }

  lemma TrimKeepsCase(n: string, suffix: string)
    requires NoUpper(n)
    ensures NoUpper(TrimSuffix(n, suffix))
  {
    if EndsWith(n, suffix) { SliceKeepsCase(n, 0, |n| - |suffix|); }
  }

  lemma LowerHasNoUpper(s: string)
    ensures NoUpper(Lower(s))
  {
    forall c | c in Lower(s) ensures !('A' <= c <= 'Z') {
      var i :| 0 <= i < |s| && Lower(s)[i] == c;
    }
  }

  // A name with plain labels is read as an address exactly when it is what the
  // address prints as, in its own family, whatever the case of its letters and with or
  // without the dot at the end.
  lemma ReadExactly(name: string, a: Addr)
    requires PlainLabels(Labels(name)) && a != NoAddr
    ensures AddrFromArpa(name) == Some(a) <==> AsRead(name) == Printed(a)
  {
    var n := AsRead(name);
    if n == Printed(a) { PrintedReads(name, a); }
    LowerHasNoUpper(name);
    TrimKeepsCase(Lower(name), ".");
    TrimKeepsCase(n, ".ip6.arpa");
    if AddrFromArpa(name) == Some(a) {
      if EndsWith(n, ".in-addr.arpa") {
        SuffixBack(n, ".in-addr.arpa");
        QuadBack(TrimSuffix(n, ".in-addr.arpa"));
      } else {
        SuffixBack(n, ".ip6.arpa");
        HexBack(TrimSuffix(n, ".ip6.arpa"));
      }
    }
  }
}
