/** Reverse names: printing an address under in-addr.arpa or ip6.arpa, and reading
    one back. */
module Arpa {
  import opened Wrappers
  import opened Net
  import opened Names
  import opened Texts

  predicate NoUpper(s: string) {
    forall c :: c in s ==> !('A' <= c <= 'Z')
  }

  lemma LowerNoUpper(s: string)
    requires NoUpper(s)
    ensures Lower(s) == s
  {
    forall i | 0 <= i < |s| ensures Lower(s)[i] == s[i] {
      assert s[i] in s;
    }
  }

  lemma {:induction false} JoinNoUpper(parts: seq<string>, c: char)
    requires parts != [] && !('A' <= c <= 'Z') && forall p :: p in parts ==> NoUpper(p)
    ensures NoUpper(Join(parts, c))
  {
    assert parts[0] in parts;
    if |parts| > 1 {
      JoinNoUpper(parts[1..], c);
    }
  }

  // ----- numbers -----

  function DigitChar(d: nat): char
    requires d < 16
  {
    if d < 10 then (48 + d) as char else (87 + d) as char
  }

  function DigitOf(c: char): Option<nat> {
    if '0' <= c <= '9' then Some(c as nat - 48)
    else if 'a' <= c <= 'f' then Some(c as nat - 87)
    else if 'A' <= c <= 'F' then Some(c as nat - 55)
    else None
  }

  // A byte in decimal, as %d prints it.
  function Decimal(b: nat): string
    requires b < 256
  {
    if b < 10 then [DigitChar(b)]
    else if b < 100 then [DigitChar(b / 10), DigitChar(b % 10)]
    else [DigitChar(b / 100), DigitChar(b / 10 % 10), DigitChar(b % 10)]
  }

  // The number a run of digits stands for in this base.
  function Number(s: string, base: nat): Option<nat> {
    if s == "" then Some(0)
    else match (Number(s[..|s| - 1], base), DigitOf(s[|s| - 1]))
      case (Some(n), Some(d)) => if d < base then Some(n * base + d) else None
      case _ => None
  }

  // One field of a dotted quad: one to three digits, no leading zero, at most 255.
  function ByteField(s: string): Option<nat> {
    if 1 <= |s| <= 3 && (s[0] == '0' ==> |s| == 1) then
      match Number(s, 10)
      case Some(n) => if n < 256 then Some(n) else None
      case None => None
    else None
  }

  // One group of an IPv6 text: one to four hexadecimal digits.
  function GroupField(s: string): Option<nat> {
    if 1 <= |s| <= 4 then Number(s, 16) else None
  }

  // ----- netip.ParseAddr, on dotted quads and on eight written-out groups -----

  function ParseQuad(fields: seq<string>): Option<Addr> {
    if |fields| != 4 then None
    else match (ByteField(fields[0]), ByteField(fields[1]), ByteField(fields[2]), ByteField(fields[3]))
      case (Some(a), Some(b), Some(c), Some(d)) =>
        var v := ((a * 256 + b) * 256 + c) * 256 + d;
        if v < LIMIT32 then Some(V4(v)) else None
      case _ => None
  }

  function GroupsValue(groups: seq<string>): Option<nat> {
    if groups == [] then Some(0)
    else match (GroupsValue(groups[..|groups| - 1]), GroupField(groups[|groups| - 1]))
      case (Some(n), Some(g)) => Some(n * 65536 + g)
      case _ => None
  }

  function ParseAddr(s: string): Option<Addr> {
    if '.' in s then ParseQuad(Split(s, '.'))
    else
      var groups := Split(s, ':');
      if |groups| != 8 then None
      else match GroupsValue(groups)
        case Some(v) => if v < LIMIT128 then Some(V6(v)) else None
        case None => None
  }

  // ----- printing -----

  // k hexadecimal digits of v, the lowest first.
  function NibbleParts(v: nat, k: nat): (r: seq<string>)
    ensures |r| == k
  {
    if k == 0 then [] else [[DigitChar(v % 16)]] + NibbleParts(v / 16, k - 1)
  }

  // The four bytes of an address, the last first.
  function ByteParts(v: U32): seq<string> {
    ByteSplit(v);
    [Decimal(v % 256), Decimal(v / 256 % 256), Decimal(v / 65536 % 256), Decimal(v / 16777216)]
  }

  lemma ByteSplit(v: U32)
    ensures v / 16777216 < 256
    ensures ((v / 16777216 * 256 + v / 65536 % 256) * 256 + v / 256 % 256) * 256 + v % 256 == v
  {
    assert v / 65536 == v / 256 / 256 && v / 16777216 == v / 256 / 256 / 256;
  }

  function ArpaName(addr: Addr): string {
    match Unmap(addr)
    case V4(v) => Join(ByteParts(v), '.') + ".in-addr.arpa."
    case V6(v) => Join(NibbleParts(v, 32), '.') + ".ip6.arpa."
    case NoAddr => Join(NibbleParts(0, 32), '.') + ".ip6.arpa."
  }

  // A byte is its two nibbles.
  lemma ByteOfNibbles(v: nat)
    ensures v % 256 % 16 == v % 16 && v % 256 / 16 == v / 16 % 16 && v / 256 == v / 16 / 16
  {
  }

  lemma NibblesByByte(v: nat, k: nat)
    requires k >= 2
    ensures Join(NibbleParts(v, k), '.') == [DigitChar(v % 256 % 16), '.', DigitChar(v % 256 / 16)]
      + (if k == 2 then "" else "." + Join(NibbleParts(v / 256, k - 2), '.'))
  {
    ByteOfNibbles(v);
    var rest := NibbleParts(v / 16, k - 1);
    assert NibbleParts(v, k)[1..] == rest;
    assert rest[1..] == NibbleParts(v / 256, k - 2);
  }

  lemma MoveAcross(s: string, d: string, t: string)
    ensures s + (d + ("." + t)) == (s + (d + ".")) + t
  {
  }

  // The IPv6 loop: the low nibble of each byte, then the high one, last byte first.
  method RenderV6(v: U128) returns (s: string)
    ensures s == Join(NibbleParts(v, 32), '.') + ".ip6.arpa."
  {
    s := "";
    var rest: nat := v;
    ghost var all := Join(NibbleParts(v, 32), '.');
    for i := 0 to 16
      invariant i < 16 ==> all == s + Join(NibbleParts(rest, 32 - 2 * i), '.')
      invariant i == 16 ==> all + "." == s
    {
      NibblesByByte(rest, 32 - 2 * i);
      var b := rest % 256;
      if i < 15 {
        MoveAcross(s, [DigitChar(b % 16), '.', DigitChar(b / 16)], Join(NibbleParts(rest / 256, 30 - 2 * i), '.'));
      }
      s := s + ([DigitChar(b % 16), '.', DigitChar(b / 16)] + ".");
      rest := rest / 256;
    }
    s := s + "ip6.arpa.";
  }

  // ----- reading back -----

  // One group: four nibbles, the highest first.
  function Low(nib: seq<string>): string
    requires |nib| >= 4
  {
    nib[3] + nib[2] + nib[1] + nib[0]
  }

  // The k groups of an address, from its nibbles: last part first, four at a time.
  function GroupParts(nib: seq<string>, k: nat): (r: seq<string>)
    requires |nib| == 4 * k
    ensures |r| == k
  {
    if k == 0 then [] else GroupParts(nib[4..], k - 1) + [Low(nib)]
  }

  function FromQuad(body: string): Option<Addr> {
    var parts := Split(body, '.');
    if |parts| != 4 then None else ParseAddr(Join([parts[3], parts[2], parts[1], parts[0]], '.'))
  }

  function FromNibbles(body: string): Option<Addr> {
    var nib := Split(body, '.');
    if |nib| != 32 then None else ParseAddr(Join(GroupParts(nib, 8), ':'))
  }

  function AddrFromArpa(name: string): Option<Addr> {
    var n := TrimSuffix(Lower(name), ".");
    if EndsWith(n, ".in-addr.arpa") then FromQuad(TrimSuffix(n, ".in-addr.arpa"))
    else if EndsWith(n, ".ip6.arpa") then FromNibbles(TrimSuffix(n, ".ip6.arpa"))
    else None
  }

  // The reading loop as written: from the last part down, a colon before every
  // group but the first.
  method JoinGroups(nib: seq<string>) returns (s: string)
    requires |nib| == 32
    ensures s == Join(GroupParts(nib, 8), ':')
  {
    s := "";
    var i := 8;
    while i > 0
      invariant 0 <= i <= 8
      invariant i == 8 ==> s == ""
      invariant 0 < i < 8 ==> s == Join(GroupParts(nib[4 * i..], 8 - i), ':') + ":"
      invariant i == 0 ==> s == Join(GroupParts(nib, 8), ':')
    {
      var low := nib[4 * i - 1] + nib[4 * i - 2] + nib[4 * i - 3] + nib[4 * i - 4];
      assert nib[4 * i - 4..][4..] == nib[4 * i..] && nib[0..] == nib;
      assert low == Low(nib[4 * i - 4..]);
      if i < 8 { JoinLast(GroupParts(nib[4 * i..], 8 - i), ':', low); }
      s := s + low;
      i := i - 1;
      if i != 0 {
        s := s + ":";
      }
    }
  }

  lemma {:induction false} JoinLast(parts: seq<string>, c: char, p: string)
    requires parts != []
    ensures Join(parts + [p], c) == Join(parts, c) + [c] + p
  {
    if |parts| > 1 {
      JoinLast(parts[1..], c, p);
      assert (parts + [p])[1..] == parts[1..] + [p];
    }
  }

  // ----- the round trip -----

  lemma NumberGrows(s: string, c: char, base: nat)
    requires Number(s, base).Some? && DigitOf(c).Some? && DigitOf(c).value < base
    ensures Number(s + [c], base) == Some(Number(s, base).value * base + DigitOf(c).value)
  {
    assert (s + [c])[..|s|] == s;
  }

  lemma Digits2(a: nat, b: nat, base: nat)
    requires a < base && b < base && (base == 10 || base == 16)
    ensures Number([DigitChar(a), DigitChar(b)], base) == Some(a * base + b)
  {
    NumberGrows("", DigitChar(a), base);
    NumberGrows([DigitChar(a)], DigitChar(b), base);
  }

  lemma Digits3(a: nat, b: nat, c: nat, base: nat)
    requires a < base && b < base && c < base && (base == 10 || base == 16)
    ensures Number([DigitChar(a), DigitChar(b), DigitChar(c)], base) == Some((a * base + b) * base + c)
  {
    Digits2(a, b, base);
    NumberGrows([DigitChar(a), DigitChar(b)], DigitChar(c), base);
    assert [DigitChar(a), DigitChar(b)] + [DigitChar(c)] == [DigitChar(a), DigitChar(b), DigitChar(c)];
  }

  lemma Digits4(a: nat, b: nat, c: nat, d: nat)
    requires a < 16 && b < 16 && c < 16 && d < 16
    ensures Number([DigitChar(a), DigitChar(b), DigitChar(c), DigitChar(d)], 16) ==
      Some(((a * 16 + b) * 16 + c) * 16 + d)
  {
    Digits3(a, b, c, 16);
    var s := [DigitChar(a), DigitChar(b), DigitChar(c)];
    NumberGrows(s, DigitChar(d), 16);
    assert s + [DigitChar(d)] == [DigitChar(a), DigitChar(b), DigitChar(c), DigitChar(d)];
  }

  lemma DecimalSplit(b: nat)
    requires b < 256
    ensures (b / 100 * 10 + b / 10 % 10) * 10 + b % 10 == b && b / 10 * 10 + b % 10 == b
  {
    assert b / 10 / 10 == b / 100;
  }

  lemma DecimalReads(b: nat)
    requires b < 256
    ensures ByteField(Decimal(b)) == Some(b)
    ensures '.' !in Decimal(b) && NoUpper(Decimal(b))
  {
    DecimalSplit(b);
    if b < 10 {
      NumberGrows("", DigitChar(b), 10);
    } else if b < 100 {
      Digits2(b / 10, b % 10, 10);
    } else {
      Digits3(b / 100, b / 10 % 10, b % 10, 10);
    }
  }

  lemma BytePartsRead(v: U32)
    ensures forall p :: p in ByteParts(v) ==> '.' !in p && NoUpper(p)
    ensures var p := ByteParts(v); ParseQuad([p[3], p[2], p[1], p[0]]) == Some(V4(v))
  {
    ByteSplit(v);
    DecimalReads(v % 256);
    DecimalReads(v / 256 % 256);
    DecimalReads(v / 65536 % 256);
    DecimalReads(v / 16777216);
  }

  lemma QuadTextReads(v: U32)
    ensures var p := ByteParts(v);
      ParseAddr(Join([p[3], p[2], p[1], p[0]], '.')) == Some(V4(v))
  {
    var p := ByteParts(v);
    BytePartsRead(v);
    var back := [p[3], p[2], p[1], p[0]];
    SplitJoin(back, '.');
    assert Join(back, '.')[|p[3]|] == '.';
  }

  // What is left of a printed name once the suffix is trimmed off.
  lemma TrimPrinted(q: string, suffix: string)
    requires NoUpper(q) && NoUpper(suffix) && !EndsWith(suffix, ".")
    ensures TrimSuffix(Lower(q + suffix + "."), ".") == q + suffix
    ensures TrimSuffix(q + suffix, suffix) == q
  {
    LowerNoUpper(q + suffix + ".");
  }

  lemma ReadQuadName(p: seq<string>)
    requires |p| == 4 && forall x :: x in p ==> '.' !in x && NoUpper(x)
    ensures AddrFromArpa(Join(p, '.') + ".in-addr.arpa.") == ParseAddr(Join([p[3], p[2], p[1], p[0]], '.'))
  {
    JoinNoUpper(p, '.');
    ReadBody(Join(p, '.'));
    SplitJoin(p, '.');
  }

  // The reader sees exactly the part printed before the suffix.
  lemma ReadBody(q: string)
    requires NoUpper(q)
    ensures AddrFromArpa(q + ".in-addr.arpa.") == FromQuad(q)
    ensures AddrFromArpa(q + ".ip6.arpa.") == FromNibbles(q)
  {
    TrimPrinted(q, ".in-addr.arpa");
    assert q + ".in-addr.arpa" + "." == q + ".in-addr.arpa.";
    TrimPrinted(q, ".ip6.arpa");
    assert q + ".ip6.arpa" + "." == q + ".ip6.arpa.";
    NotInAddr(q);
  }

  lemma ArpaV4Reads(v: U32)
    ensures AddrFromArpa(ArpaName(V4(v))) == Some(V4(v))
  {
    BytePartsRead(v);
    ReadQuadName(ByteParts(v));
    QuadTextReads(v);
  }

  lemma {:induction false} NibblePartsPlain(v: nat, k: nat)
    ensures forall p :: p in NibbleParts(v, k) ==> '.' !in p && ':' !in p && NoUpper(p)
  {
    if k > 0 {
      NibblePartsPlain(v / 16, k - 1);
    }
  }

  lemma FourNibbles(v: nat, k: nat)
    requires k >= 4
    ensures var p := NibbleParts(v, k);
      && Low(p) ==
         [DigitChar(v / 4096 % 16), DigitChar(v / 256 % 16), DigitChar(v / 16 % 16), DigitChar(v % 16)]
      && p[4..] == NibbleParts(v / 65536, k - 4)
  {
    assert v / 16 / 16 == v / 256 && v / 256 / 16 == v / 4096 && v / 4096 / 16 == v / 65536;
    var p1 := NibbleParts(v / 16, k - 1);
    var p2 := NibbleParts(v / 256, k - 2);
    var p3 := NibbleParts(v / 4096, k - 3);
    assert NibbleParts(v, k)[1..] == p1 && p1[1..] == p2 && p2[1..] == p3 && p3[1..] == NibbleParts(v / 65536, k - 4);
  }

  lemma GroupReads(v: nat)
    ensures GroupField([DigitChar(v / 4096 % 16), DigitChar(v / 256 % 16), DigitChar(v / 16 % 16),
                        DigitChar(v % 16)]) == Some(v % 65536)
  {
    Digits4(v / 4096 % 16, v / 256 % 16, v / 16 % 16, v % 16);
    assert v / 16 / 16 == v / 256 && v / 256 / 16 == v / 4096 && v / 4096 / 16 == v / 65536;
  }

  lemma LowNibbles(v: nat, k: nat)
    requires k >= 4
    ensures GroupField(Low(NibbleParts(v, k))) == Some(v % 65536)
    ensures NibbleParts(v, k)[4..] == NibbleParts(v / 65536, k - 4)
  {
    FourNibbles(v, k);
    GroupReads(v);
  }

  // How many values k groups can spell.
  function Groups(k: nat): nat {
    if k == 0 then 1 else 65536 * Groups(k - 1)
  }

  lemma EightGroups()
    ensures Groups(8) == LIMIT128
  {
    assert Groups(4) == 0x1_0000_0000_0000_0000;
  }

  lemma {:induction false} GroupPartsPlain(nib: seq<string>, k: nat)
    requires |nib| == 4 * k && forall p :: p in nib ==> '.' !in p && ':' !in p
    ensures forall g :: g in GroupParts(nib, k) ==> '.' !in g && ':' !in g
  {
    if k > 0 {
      GroupPartsPlain(nib[4..], k - 1);
      assert nib[0] in nib && nib[1] in nib && nib[2] in nib && nib[3] in nib;
    }
  }

  // The groups spell v, the last one the lowest sixteen bits.
  predicate Spells(groups: seq<string>, v: nat) {
    if groups == [] then v == 0
    else GroupField(groups[|groups| - 1]) == Some(v % 65536) && Spells(groups[..|groups| - 1], v / 65536)
  }

  lemma {:induction false} SpellsReads(groups: seq<string>, v: nat)
    requires Spells(groups, v)
    ensures GroupsValue(groups) == Some(v)
  {
    if groups != [] {
      SpellsReads(groups[..|groups| - 1], v / 65536);
    }
  }

  lemma {:induction false} NibblesSpell(v: nat, k: nat)
    requires v < Groups(k)
    ensures Spells(GroupParts(NibbleParts(v, 4 * k), k), v)
  {
    if k > 0 {
      var nib := NibbleParts(v, 4 * k);
      LowNibbles(v, 4 * k);
      NibblesSpell(v / 65536, k - 1);
      assert nib[4..] == NibbleParts(v / 65536, 4 * (k - 1));
      assert (GroupParts(nib[4..], k - 1) + [Low(nib)])[..k - 1] == GroupParts(nib[4..], k - 1);
    }
  }

  lemma {:induction false} JoinAvoids(parts: seq<string>, c: char, avoid: char)
    requires parts != [] && c != avoid && forall p :: p in parts ==> avoid !in p
    ensures avoid !in Join(parts, c)
  {
    assert parts[0] in parts;
    if |parts| > 1 {
      JoinAvoids(parts[1..], c, avoid);
    }
  }

  lemma GroupTextReads(v: U128)
    ensures ParseAddr(Join(GroupParts(NibbleParts(v, 32), 8), ':')) == Some(V6(v))
  {
    EightGroups();
    NibblesSpell(v, 8);
    SpellsReads(GroupParts(NibbleParts(v, 32), 8), v);
    NibblePartsPlain(v, 32);
    GroupPartsPlain(NibbleParts(v, 32), 8);
    var groups := GroupParts(NibbleParts(v, 32), 8);
    SplitJoin(groups, ':');
    JoinAvoids(groups, ':', '.');
  }

  lemma ReadNibbleName(nib: seq<string>)
    requires |nib| == 32 && forall x :: x in nib ==> '.' !in x && NoUpper(x)
    ensures AddrFromArpa(Join(nib, '.') + ".ip6.arpa.") == ParseAddr(Join(GroupParts(nib, 8), ':'))
  {
    JoinNoUpper(nib, '.');
    ReadBody(Join(nib, '.'));
    SplitJoin(nib, '.');
  }

  lemma ArpaV6Reads(v: U128)
    ensures AddrFromArpa(Join(NibbleParts(v, 32), '.') + ".ip6.arpa.") == Some(V6(v))
  {
    NibblePartsPlain(v, 32);
    ReadNibbleName(NibbleParts(v, 32));
    GroupTextReads(v);
  }

  lemma NotInAddr(q: string)
    ensures !EndsWith(q + ".ip6.arpa", ".in-addr.arpa")
  {
    var n := q + ".ip6.arpa";
    assert n[|n| - 6] == '6' && ".in-addr.arpa"[7] == 'r';
  }

  // Reading undoes printing, up to the IPv4 form of a mapped address.
  lemma ReadingUndoesPrinting(a: Addr)
    requires a != NoAddr
    ensures AddrFromArpa(ArpaName(a)) == Some(Unmap(a))
  {
    match Unmap(a)
    case V4(v) => ArpaV4Reads(v);
    case V6(v) => ArpaV6Reads(v);
  }

  // So reading gives the address itself back exactly when it is not a mapped one.
  lemma RoundTripExactly(a: Addr)
    requires a != NoAddr
    ensures AddrFromArpa(ArpaName(a)) == Some(a) <==> !Is4In6(a)
  {
    ReadingUndoesPrinting(a);
  }

  lemma PrintingIsInjective(a: Addr, b: Addr)
    requires a != NoAddr && b != NoAddr && ArpaName(a) == ArpaName(b)
    ensures Unmap(a) == Unmap(b)
  {
    ReadingUndoesPrinting(a);
    ReadingUndoesPrinting(b);
  }

  lemma SuffixedIsNormal(q: string)
    requires NoUpper(q)
    ensures Lower(q + ".in-addr.arpa.") == q + ".in-addr.arpa." && Fqdn(q + ".in-addr.arpa.") == q + ".in-addr.arpa."
    ensures Lower(q + ".ip6.arpa.") == q + ".ip6.arpa." && Fqdn(q + ".ip6.arpa.") == q + ".ip6.arpa."
  {
    LowerNoUpper(q + ".in-addr.arpa.");
    LowerNoUpper(q + ".ip6.arpa.");
  }

  // A printed name is lower-case and fully qualified, under its own suffix.
  lemma PrintedIsNormal(a: Addr)
    ensures Lower(ArpaName(a)) == ArpaName(a) && Fqdn(ArpaName(a)) == ArpaName(a)
    ensures EndsWith(ArpaName(a), ".in-addr.arpa.") || EndsWith(ArpaName(a), ".ip6.arpa.")
  {
    match Unmap(a)
    case V4(v) =>
      BytePartsRead(v);
      JoinNoUpper(ByteParts(v), '.');
      SuffixedIsNormal(Join(ByteParts(v), '.'));
    case V6(v) => NibbleNameIsNormal(v);
    case NoAddr => NibbleNameIsNormal(0);
  }

  lemma NibbleNameIsNormal(v: nat)
    ensures var n := Join(NibbleParts(v, 32), '.') + ".ip6.arpa.";
      Lower(n) == n && Fqdn(n) == n && EndsWith(n, ".ip6.arpa.")
  {
    NibblePartsPlain(v, 32);
    JoinNoUpper(NibbleParts(v, 32), '.');
    SuffixedIsNormal(Join(NibbleParts(v, 32), '.'));
  }
}
