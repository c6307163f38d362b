/** What a reverse name looks like, digit by digit, as section 3.5 of RFC 1035 and section
    2.5 of RFC 3596 lay it out. */
module ReverseNames {
  import opened Wrappers
  import opened Net
  import opened Names
  import opened Texts
  import opened Arpa

  const HEX := "0123456789abcdef"

  // A number in decimal.
  function Digits(n: nat): string {
    if n < 10 then [HEX[n]] else Digits(n / 10) + [HEX[n % 10]]
  }

  lemma HexDigits(d: nat)
    requires d < 16
    ensures DigitChar(d) == HEX[d]
  {
  }

  lemma DecimalIsDigits(b: nat)
    requires b < 256
    ensures Decimal(b) == Digits(b)
  {
    HexDigits(b % 10);
    HexDigits(b / 10 % 10);
    if b < 10 {
    } else if b < 100 {
      assert Digits(b / 10) == [HEX[b / 10]];
    } else {
      assert b / 10 / 10 == b / 100;
      HexDigits(b / 100);
      assert Digits(b / 10 / 10) == [HEX[b / 100]];
      assert Digits(b / 10) == [HEX[b / 100]] + [HEX[b / 10 % 10]];
    }
  }

  lemma BytesOf(a: nat, b: nat, c: nat, d: nat)
    requires a < 256 && b < 256 && c < 256 && d < 256
    ensures var v := ((a * 256 + b) * 256 + c) * 256 + d;
      v < LIMIT32 && v % 256 == d && v / 256 % 256 == c && v / 65536 % 256 == b && v / 16777216 == a
  {
    var v := ((a * 256 + b) * 256 + c) * 256 + d;
    assert v / 256 == (a * 256 + b) * 256 + c;
    assert v / 65536 == v / 256 / 256 == a * 256 + b;
    assert v / 16777216 == v / 65536 / 256 == a;
  }

  lemma JoinFour(p: string, q: string, r: string, s: string)
    ensures Join([p, q, r, s], '.') == p + "." + q + "." + r + "." + s
  {
    assert [r, s][1..] == [s] && [q, r, s][1..] == [r, s] && [p, q, r, s][1..] == [q, r, s];
    assert Join([s], '.') == s;
    assert Join([r, s], '.') == r + "." + s;
    assert Join([q, r, s], '.') == q + "." + (r + "." + s);
    assert Join([p, q, r, s], '.') == p + "." + (q + "." + (r + "." + s));
  }

  // The name of a.b.c.d, or of the IPv6 address it is mapped into, is d.c.b.a in decimal.
  lemma QuadName(a: nat, b: nat, c: nat, d: nat)
    requires a < 256 && b < 256 && c < 256 && d < 256
    ensures var v := ((a * 256 + b) * 256 + c) * 256 + d;
      var name := Digits(d) + "." + Digits(c) + "." + Digits(b) + "." + Digits(a) + ".in-addr.arpa.";
      v < LIMIT32 && ArpaName(V4(v)) == name && ArpaName(V6(0xFFFF * LIMIT32 + v)) == name
  {
    BytesOf(a, b, c, d);
    var v := ((a * 256 + b) * 256 + c) * 256 + d;
    DivUnique(0xFFFF * LIMIT32 + v, LIMIT32, 0xFFFF, v);
    assert Unmap(V6(0xFFFF * LIMIT32 + v)) == V4(v) == Unmap(V4(v));
    DecimalIsDigits(a);
    DecimalIsDigits(b);
    DecimalIsDigits(c);
    DecimalIsDigits(d);
    hide Decimal, Digits, Unmap, Join;
    JoinFour(Digits(d), Digits(c), Digits(b), Digits(a));
    assert ByteParts(v) == [Digits(d), Digits(c), Digits(b), Digits(a)];
  }

  function Pow16(k: nat): (r: nat)
    ensures r > 0
  {
    if k == 0 then 1 else 16 * Pow16(k - 1)
  }

  lemma DivTwice(v: nat, p: nat)
    requires p > 0
    ensures v / 16 / p == v / (16 * p)
  {
    var q, r := v / 16 / p, v / 16 % p;
    assert v / 16 == p * q + r && v == 16 * (v / 16) + v % 16;
    assert 16 * (p * q) == (16 * p) * q;
    DivUnique(v, 16 * p, q, 16 * r + v % 16);
  }

  lemma {:induction false} NibbleAt(v: nat, n: nat, k: nat)
    requires k < n
    ensures NibbleParts(v, n)[k] == [HEX[v / Pow16(k) % 16]]
  {
    if k == 0 {
      HexDigits(v % 16);
    } else {
      NibbleAt(v / 16, n - 1, k - 1);
      DivTwice(v, Pow16(k - 1));
    }
  }

  lemma {:induction false} JoinedAt(parts: seq<string>, k: nat)
    requires k < |parts| && forall i :: 0 <= i < |parts| ==> |parts[i]| == 1
    ensures |Join(parts, '.')| == 2 * |parts| - 1
    ensures Join(parts, '.')[2 * k] == parts[k][0]
    ensures k + 1 < |parts| ==> Join(parts, '.')[2 * k + 1] == '.'
  {
    if |parts| > 1 { JoinedAt(parts[1..], if k == 0 then 0 else k - 1); }
  }

  lemma {:induction false} NibblesAreSingle(v: nat, n: nat)
    ensures forall i :: 0 <= i < n ==> |NibbleParts(v, n)[i]| == 1
  {
    if n > 0 { NibblesAreSingle(v / 16, n - 1); }
  }

  // The name of an IPv6 address proper has its 32 hexadecimal digits, the last one first, a
  // dot after each.
  lemma NibbleName(v: U128, k: nat)
    requires !Is4In6(V6(v)) && k < 32
    ensures var name := ArpaName(V6(v));
      && |name| == 63 + |".ip6.arpa."| && name[63..] == ".ip6.arpa."
      && name[2 * k] == HEX[v / Pow16(k) % 16] && name[2 * k + 1] == '.'
  {
    var parts := NibbleParts(v, 32);
    NibblesAreSingle(v, 32);
    JoinedAt(parts, k);
    NibbleAt(v, 32, k);
    hide NibbleParts, Join, Pow16;
    assert ArpaName(V6(v)) == Join(parts, '.') + ".ip6.arpa.";
  }
}
