/** What an accepted settings row is once it has been through its text columns, and which
    cache limits it can ask for. */
module StoredRows {
  import opened Wrappers
  import Texts
  import opened Tables
  import opened StoreFacts
  import opened SettingsRules
  import Cache
  import CacheFacts

  // Neither parser takes an empty text, and a prefix has no line break. An upstream may
  // have one anywhere its parser does not look: around it, or in what follows a '#'.
  ghost predicate Plain(x: Syntax) {
    && (forall s: string :: x.prefix(s).Some? ==> s != "" && NoBreak(s))
    && (forall s: string :: x.upstream(s) ==> s != "")
  }

  // ----- what a column reads back as -----

  lemma {:induction false} JoinConcat(x: seq<string>, y: seq<string>, c: char)
    requires x != [] && y != []
    ensures Texts.Join(x + y, c) == Texts.Join(x, c) + [c] + Texts.Join(y, c)
  {
    assert (x + y)[1..] == x[1..] + y;
    if |x| > 1 {
      JoinConcat(x[1..], y, c);
    } else {
      assert x[1..] + y == y;
    }
  }

  lemma SplitConcat(a: string, c: char, b: string)
    ensures Texts.Split(a + [c] + b, c) == Texts.Split(a, c) + Texts.Split(b, c)
  {
    var x, y := Texts.Split(a, c), Texts.Split(b, c);
    Texts.JoinSplit(a, c);
    Texts.JoinSplit(b, c);
    Texts.PiecesArePlain(a, c);
    Texts.PiecesArePlain(b, c);
    PiecesSplit(x, y, c);
  }

  lemma PiecesSplit(x: seq<string>, y: seq<string>, c: char)
    requires x != [] && y != [] && (forall p :: p in x ==> c !in p) && forall p :: p in y ==> c !in p
    ensures Texts.Split(Texts.Join(x, c) + [c] + Texts.Join(y, c), c) == x + y
  {
    JoinConcat(x, y, c);
    Texts.SplitJoin(x + y, c);
  }

  // Every line of every entry, in order.
  function Lines(parts: seq<string>): seq<string> {
    if parts == [] then [] else Texts.Split(parts[0], '\n') + Lines(parts[1..])
  }

  lemma {:induction false} JoinedLines(parts: seq<string>)
    requires parts != []
    ensures Texts.Split(Texts.Join(parts, '\n'), '\n') == Lines(parts)
  {
    if |parts| > 1 {
      SplitConcat(parts[0], '\n', Texts.Join(parts[1..], '\n'));
      JoinedLines(parts[1..]);
    } else {
      assert Lines(parts[1..]) == [];
    }
  }

  lemma {:induction false} LinesHave(parts: seq<string>, p: string)
    ensures p in Lines(parts) <==> exists u :: u in parts && p in Texts.Split(u, '\n')
  {
    if parts != [] {
      LinesHave(parts[1..], p);
      assert forall u :: u in parts <==> u == parts[0] || u in parts[1..];
      if p in Lines(parts) {
        if p in Texts.Split(parts[0], '\n') {
          assert parts[0] in parts;
        } else {
          var u :| u in parts[1..] && p in Texts.Split(u, '\n');
          assert u in parts;
        }
      }
    }
  }

  lemma {:induction false} JoinedIsLonger(parts: seq<string>, s: string)
    requires s in parts
    ensures |Texts.Join(parts, '\n')| >= |s|
  {
    if |parts| > 1 && s != parts[0] {
      assert s in parts[1..];
      JoinedIsLonger(parts[1..], s);
    }
  }

  // A column of entries none of which is empty reads back as its lines.
  lemma ColumnReadsBack(v: Strings)
    requires forall s :: s in v.All() ==> s != ""
    ensures UnpackList(PackList(v)).All() == Lines(v.All())
  {
    if v.All() != [] {
      var first := v.All()[0];
      assert first in v.All();
      JoinedIsLonger(v.All(), first);
      JoinedLines(v.All());
    }
  }

  // Which is what it was exactly when no entry has a line break.
  lemma {:induction false} LinesAreEntries(parts: seq<string>)
    requires forall s :: s in parts ==> NoBreak(s)
    ensures Lines(parts) == parts
  {
    if parts != [] {
      assert parts[0] in parts;
      Texts.SplitWhole(parts[0], '\n');
      LinesAreEntries(parts[1..]);
    }
  }

  lemma LinesAreEntriesExactly(parts: seq<string>)
    ensures Lines(parts) == parts <==> forall s :: s in parts ==> NoBreak(s)
  {
    if forall s :: s in parts ==> NoBreak(s) {
      LinesAreEntries(parts);
    } else if Lines(parts) == parts {
      forall s | s in parts ensures NoBreak(s) {
        LinesHave(parts, s);
        var u :| u in parts && s in Texts.Split(u, '\n');
        Texts.PiecesArePlain(u, '\n');
      }
    }
  }

  // ----- what a row reads back as -----

  // What a restart makes of the row just stored.
  function ReadBack(v: Settings<Strings>): Settings<Strings> { ValueOf(RowOf(v)) }

  predicate SameEntries(v: Replicated<Strings>, w: Replicated<Strings>) {
    v.reverseZones.All() == w.reverseZones.All() && v.upstreams.All() == w.upstreams.All()
      && v.allowQuery.All() == w.allowQuery.All()
  }

  // Rows that differ in nothing but their upstreams and how their lists are held.
  predicate SameButUpstreams(v: Settings<Strings>, w: Settings<Strings>) {
    && w.shared.reverseZones.All() == v.shared.reverseZones.All()
    && w.shared.allowQuery.All() == v.shared.allowQuery.All()
    && w == v.(shared := v.shared.(reverseZones := w.shared.reverseZones, upstreams := w.shared.upstreams,
                                   allowQuery := w.shared.allowQuery))
  }

  lemma PrefixColumnReadsBack(x: Syntax, v: Strings)
    requires Plain(x) && AllPrefixes(x, v.All())
    ensures UnpackList(PackList(v)).All() == v.All()
  {
    ColumnReadsBack(v);
    LinesAreEntries(v.All());
  }

  lemma RowReadsBack(x: Syntax, v: Settings<Strings>)
    requires Plain(x) && Stored(x, v)
    ensures SameButUpstreams(v, ReadBack(v))
    ensures ReadBack(v).shared.upstreams.All() == Lines(v.shared.upstreams.All())
  {
    PrefixColumnReadsBack(x, v.shared.reverseZones);
    PrefixColumnReadsBack(x, v.shared.allowQuery);
    ColumnReadsBack(v.shared.upstreams);
  }

  // Of two rows that differ in their upstreams alone, the rules judge those alone.
  lemma UpstreamsDecide(x: Syntax, v: Settings<Strings>, w: Settings<Strings>)
    requires Stored(x, v) && SameButUpstreams(v, w) && w.shared.upstreams.All() != []
    ensures if Parts(x, w.shared.upstreams.All()) then Stored(x, w) else ValidateStored(x, w) == Some("upstreams")
  {
    SharedUpstreamsDecide(x, v.shared, w.shared, v.local.discoveryInterval);
  }

  lemma SharedUpstreamsDecide(x: Syntax, v: Replicated<Strings>, w: Replicated<Strings>, interval: int)
    requires CheckShared(x, v, interval) == None && w.upstreams.All() != []
    requires w.reverseZones.All() == v.reverseZones.All() && w.allowQuery.All() == v.allowQuery.All()
    requires w == v.(reverseZones := w.reverseZones, upstreams := w.upstreams, allowQuery := w.allowQuery)
    ensures CheckShared(x, w, interval) == if Parts(x, w.upstreams.All()) then None else Some("upstreams")
  {
  }

  lemma UpstreamsDecideTheBuild(x: Syntax, v: Settings<Strings>, w: Settings<Strings>)
    requires SameButUpstreams(v, w) && Build(x, v).Ok?
    ensures Build(x, w).Ok? <==> Parts(x, w.shared.upstreams.All())
    ensures Build(x, w).Ok? ==> Build(x, w).value.(raw := v) == Build(x, v).value
  {
    assert AllowList(w.shared) == AllowList(v.shared);
  }

  // Every line of every upstream is an upstream itself.
  predicate LinesParse(x: Syntax, upstreams: seq<string>) {
    forall u, p :: u in upstreams && p in Texts.Split(u, '\n') ==> x.upstream(p)
  }

  lemma LinesParseExactly(x: Syntax, upstreams: seq<string>)
    ensures Parts(x, Lines(upstreams)) <==> LinesParse(x, upstreams)
  {
    forall p ensures p in Lines(upstreams) <==> exists u :: u in upstreams && p in Texts.Split(u, '\n') {
      LinesHave(upstreams, p);
    }
  }

  // An accepted row read back is accepted exactly when every line of its upstreams parses;
  // otherwise it is refused for its upstreams, and nothing can be built from it. It has
  // the same entries exactly when no upstream holds a line break, and then runs the same.
  lemma AcceptedRowReadsBackExactly(x: Syntax, v: Settings<Strings>)
    requires Plain(x) && Stored(x, v) && x.prefix(TAILSCALE_CGNAT).Some?
    ensures Stored(x, ReadBack(v)) <==> LinesParse(x, v.shared.upstreams.All())
    ensures SameEntries(ReadBack(v).shared, v.shared) <==> forall u :: u in v.shared.upstreams.All() ==> NoBreak(u)
    ensures SameEntries(ReadBack(v).shared, v.shared) ==>
      Stored(x, ReadBack(v)) && Build(x, ReadBack(v)).Ok? && Build(x, ReadBack(v)).value.(raw := v) == Build(x, v).value
    ensures !Stored(x, ReadBack(v)) ==>
      ValidateStored(x, ReadBack(v)) == Some("upstreams") && Build(x, ReadBack(v)).Err?
  {
    var ups := v.shared.upstreams.All();
    RowReadsBack(x, v);
    LinesAreEntriesExactly(ups);
    LinesParseExactly(x, ups);
    Texts.JoinSplit(ups[0], '\n');
    StoredBuilds(x, v);
    UpstreamsDecide(x, v, ReadBack(v));
    UpstreamsDecideTheBuild(x, v, ReadBack(v));
  }

  function WithUpstream(v: Settings<Strings>, u: string): Settings<Strings> {
    v.(shared := v.shared.(upstreams := Items([u])))
  }

  // An upstream of two lines, in any row that is good with it.
  lemma TwoLines(x: Syntax, v: Settings<Strings>, a: string, b: string)
    requires Plain(x) && Stored(x, v) && x.upstream(a + "\n" + b) && NoBreak(a) && NoBreak(b)
    ensures var w := WithUpstream(v, a + "\n" + b);
      && Stored(x, w) && ReadBack(w).shared.upstreams.All() == [a, b]
      && if x.upstream(a) && x.upstream(b) then Stored(x, ReadBack(w))
        else ValidateStored(x, ReadBack(w)) == Some("upstreams")
  {
    var u := a + "\n" + b;
    var w := WithUpstream(v, u);
    SharedUpstreamsDecide(x, v.shared, w.shared, v.local.discoveryInterval);
    RowReadsBack(x, w);
    SplitConcat(a, '\n', b);
    Texts.SplitWhole(a, '\n');
    Texts.SplitWhole(b, '\n');
    assert [u][1..] == [] && Lines([u]) == [a, b];
    UpstreamsDecide(x, w, ReadBack(w));
  }

  // The inputs: an upstream followed by a line break is accepted and stored, and the
  // stored row refused.
  lemma BrokenUpstreamIsAccepted(x: Syntax, v: Settings<Strings>)
    requires Plain(x) && Stored(x, v) && x.upstream("1.1.1.1\n")
    ensures var w := WithUpstream(v, "1.1.1.1\n");
      Stored(x, w) && ValidateStored(x, ReadBack(w)) == Some("upstreams")
  {
    assert "1.1.1.1" + "\n" + "" == "1.1.1.1\n";
    TwoLines(x, v, "1.1.1.1", "");
  }

  // One with a second line in its fragment is accepted, stored, and accepted again as two,
  // the second of them in the clear.
  lemma HiddenUpstreamIsAccepted(x: Syntax, v: Settings<Strings>)
    requires Plain(x) && Stored(x, v)
    requires x.upstream("tls://1.1.1.1#a\n9.9.9.9") && x.upstream("tls://1.1.1.1#a") && x.upstream("9.9.9.9")
    ensures var w := WithUpstream(v, "tls://1.1.1.1#a\n9.9.9.9");
      Stored(x, w) && Stored(x, ReadBack(w)) && ReadBack(w).shared.upstreams.All() == ["tls://1.1.1.1#a", "9.9.9.9"]
  {
    HiddenLines();
    TwoLines(x, v, "tls://1.1.1.1#a", "9.9.9.9");
  }

  lemma HiddenLines()
    ensures "tls://1.1.1.1#a" + "\n" + "9.9.9.9" == "tls://1.1.1.1#a\n9.9.9.9"
    ensures NoBreak("tls://1.1.1.1#a") && NoBreak("9.9.9.9")
  {
  }

  // ----- the cache limits of a row -----

  function LimitsOf(v: Replicated<Strings>): Cache.Limits {
    Cache.Limits(v.cacheEntries, Cache.ToU32(v.cacheMinTTL), Cache.ToU32(v.cacheMaxTTL), Cache.ToU32(v.negativeMaxTTL))
  }

  // No accepted row makes a cache of a size below one, so every eviction it runs ends.
  lemma AcceptedCacheEvicts(x: Syntax, v: Settings<Strings>, s: seq<Cache.Entry>)
    requires Stored(x, v)
    ensures LimitsOf(v.shared).maxEntries >= 1
    ensures exists n: nat :: |CacheFacts.AfterTurns(s, n)| <= LimitsOf(v.shared).maxEntries
  {
    CacheFacts.EvictionEndsExactly(s, LimitsOf(v.shared).maxEntries);
  }

  // The input: an accepted row, whatever else is in it, whose floor is above its ceiling
  // for negative answers. A name error is then kept ten times as long as the ceiling.
  lemma CeilingMayBeOverrun(x: Syntax, v: Settings<Strings>)
    requires Stored(x, v)
    ensures var w := v.(shared := v.shared.(cacheMinTTL := 600, cacheMaxTTL := 3600, negativeMaxTTL := 60));
      var m := Cache.Msg(true, [], [Cache.RR(false, 3600, Some(30), "")], []);
      Stored(x, w) && LimitsOf(w.shared).negMaxTTL == 60 && Cache.TTLFor(LimitsOf(w.shared), m) == 600
  {
    var soa := Cache.RR(false, 3600, Some(30), "");
    assert Cache.FirstSOA([soa]) == Some(soa);
  }
}
