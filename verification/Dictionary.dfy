/** The surfaces that may be locked, as the terms table offers them. */
module Dictionary {

  /** A row of the terms table. */
  datatype TermEntry = TermEntry(zh: string, en: string) {
    /** One of its two forms is this surface; an entry of more than one line offers nothing. */
    predicate Offers(source: string)
    {
      '\n' !in zh && '\n' !in en && source != "" && (source == zh || source == en)
    }
  }

  /** A surface and the official `(zh, en)` pair it stands for. */
  datatype Lockable = Lockable(source: string, zh: string, en: string) {
    function Official(toEn: bool): string { if toEn then en else zh }

    /** The filter of `_eligible_lockable_sources`. */
    predicate Eligible()
    {
      |source| >= 2 && zh != "" && en != "" && '\n' !in zh && '\n' !in en
    }
  }

  function Surfaces(lockable: seq<Lockable>): (r: seq<string>)
    ensures |r| == |lockable| && forall k :: 0 <= k < |r| ==> r[k] == lockable[k].source
  {
    seq(|lockable|, k requires 0 <= k < |lockable| => lockable[k].source)
  }

  // ---------------------------------------------------------------- reading

  predicate Listed(sources: seq<Lockable>, source: string) { exists l <- sources :: l.source == source }

  /** `sources.setdefault`, on a dictionary in the order of its insertions. */
  function SetDefault(sources: seq<Lockable>, source: string, e: TermEntry): seq<Lockable>
  {
    if source == "" || Listed(sources, source) then sources else sources + [Lockable(source, e.zh, e.en)]
  }

  function WithEntry(sources: seq<Lockable>, e: TermEntry): seq<Lockable>
  {
    if '\n' in e.zh || '\n' in e.en then sources else SetDefault(SetDefault(sources, e.zh, e), e.en, e)
  }

  /** `_read_lockable_sources`: both forms of every entry, each surface for the first entry that offers it. */
  function Sources(entries: seq<TermEntry>): seq<Lockable>
  {
    if entries == [] then [] else WithEntry(Sources(entries[..|entries| - 1]), entries[|entries| - 1])
  }

  function Filtered(sources: seq<Lockable>): seq<Lockable>
  {
    if sources == [] then []
    else Filtered(sources[..|sources| - 1]) + (if sources[|sources| - 1].Eligible() then [sources[|sources| - 1]] else [])
  }

  /** `_eligible_lockable_sources`. */
  function Lockables(entries: seq<TermEntry>): seq<Lockable> { Filtered(Sources(entries)) }

  /** The two loops behind `_eligible_lockable_sources`. */
  method EligibleLockableSources(entries: seq<TermEntry>) returns (r: seq<Lockable>)
    ensures r == Lockables(entries)
  {
    var sources: seq<Lockable> := [];
    for n := 0 to |entries|
      invariant sources == Sources(entries[..n])
    {
      var e := entries[n];
      assert entries[..n + 1][..n] == entries[..n];
      if '\n' !in e.zh && '\n' !in e.en {
        sources := SetDefault(sources, e.zh, e);
        sources := SetDefault(sources, e.en, e);
      }
    }
    assert entries[..|entries|] == entries;
    r := [];
    for n := 0 to |sources|
      invariant r == Filtered(sources[..n])
    {
      assert sources[..n + 1][..n] == sources[..n];
      if sources[n].Eligible() { r := r + [sources[n]]; }
    }
    assert sources[..|sources|] == sources;
  }

  // ---------------------------------------------------------------- what is listed

  ghost predicate DistinctSources(sources: seq<Lockable>)
  {
    forall i, j :: 0 <= i < j < |sources| ==> sources[i].source != sources[j].source
  }

  /** Entry `k` is the first to offer the surface, and gives it its official forms. */
  ghost predicate FirstOffer(entries: seq<TermEntry>, l: Lockable, k: nat)
  {
    && k < |entries| && entries[k] == TermEntry(l.zh, l.en) && entries[k].Offers(l.source)
    && forall j :: 0 <= j < k ==> !entries[j].Offers(l.source)
  }

  lemma DefaultListed(sources: seq<Lockable>, source: string, e: TermEntry)
    ensures forall s :: Listed(SetDefault(sources, source, e), s) <==> Listed(sources, s) || (source != "" && s == source)
    ensures forall l :: l in SetDefault(sources, source, e)
              <==> l in sources || (source != "" && !Listed(sources, source) && l == Lockable(source, e.zh, e.en))
    ensures DistinctSources(sources) ==> DistinctSources(SetDefault(sources, source, e))
  {
    var l := Lockable(source, e.zh, e.en);
    assert l in sources + [l];
    forall x <- sources ensures x in sources + [l] {}
  }

  /** An entry adds those surfaces it offers that nobody offered before. */
  lemma EntryListed(sources: seq<Lockable>, e: TermEntry)
    ensures forall s :: Listed(WithEntry(sources, e), s) <==> Listed(sources, s) || e.Offers(s)
    ensures forall l :: l in WithEntry(sources, e)
              <==> l in sources || (e.Offers(l.source) && !Listed(sources, l.source) && e == TermEntry(l.zh, l.en))
    ensures DistinctSources(sources) ==> DistinctSources(WithEntry(sources, e))
  {
    hide Listed, SetDefault, DistinctSources;
    DefaultListed(sources, e.zh, e);
    DefaultListed(SetDefault(sources, e.zh, e), e.en, e);
  }

  lemma {:induction false} SourcesAre(entries: seq<TermEntry>)
    ensures forall s :: Listed(Sources(entries), s) <==> exists e <- entries :: e.Offers(s)
    ensures forall l :: l in Sources(entries) <==> exists k: nat :: FirstOffer(entries, l, k)
    ensures DistinctSources(Sources(entries))
  {
    hide Listed, WithEntry, DistinctSources;
    if entries == [] {
      NothingListed();
    } else {
      var n := |entries| - 1;
      var front, e := entries[..n], entries[n];
      SourcesAre(front);
      EntryListed(Sources(front), e);
      assert entries == front + [e];
      forall l ensures l in Sources(entries) <==> exists k: nat :: FirstOffer(entries, l, k)
      {
        FirstOfferMore(front, e, l);
      }
    }
  }

  lemma NothingListed()
    ensures forall s :: !Listed([], s)
    ensures DistinctSources([])
  {
  }

  lemma FirstOfferMore(front: seq<TermEntry>, e: TermEntry, l: Lockable)
    ensures (exists k: nat :: FirstOffer(front + [e], l, k))
            <==> (exists k: nat :: FirstOffer(front, l, k))
                 || (e.Offers(l.source) && e == TermEntry(l.zh, l.en) && !exists o <- front :: o.Offers(l.source))
  {
    var entries := front + [e];
    if k: nat :| FirstOffer(front, l, k) {
      assert FirstOffer(entries, l, k);
    }
    if k: nat :| FirstOffer(entries, l, k) {
      forall j | 0 <= j < k && k < |front| ensures !front[j].Offers(l.source) { assert entries[j] == front[j]; }
      if k < |front| { assert FirstOffer(front, l, k); }
      forall o <- front | k == |front| ensures !o.Offers(l.source)
      {
        var j :| 0 <= j < |front| && front[j] == o;
        assert entries[j] == o;
      }
    }
    if e.Offers(l.source) && e == TermEntry(l.zh, l.en) && !exists o <- front :: o.Offers(l.source) {
      assert forall j :: 0 <= j < |front| ==> entries[j] in front;
      assert FirstOffer(entries, l, |front|);
    }
  }

  lemma {:induction false} FilteredAre(sources: seq<Lockable>)
    ensures forall l :: l in Filtered(sources) <==> l in sources && l.Eligible()
    ensures DistinctSources(sources) ==> DistinctSources(Filtered(sources))
  {
    if sources != [] {
      var n := |sources| - 1;
      assert sources == sources[..n] + [sources[n]];
      FilteredAre(sources[..n]);
      if DistinctSources(sources) { OneMoreDistinct(sources, Filtered(sources[..n])); }
    }
  }

  lemma OneMoreDistinct(sources: seq<Lockable>, some: seq<Lockable>)
    requires sources != [] && DistinctSources(sources)
    requires DistinctSources(some) && forall l <- some :: l in sources[..|sources| - 1]
    ensures DistinctSources(some + [sources[|sources| - 1]])
  {
    var last, longer := sources[|sources| - 1], some + [sources[|sources| - 1]];
    forall i, j | 0 <= i < j < |longer| ensures longer[i].source != longer[j].source
    {
      assert longer[i] in some;
      if j == |some| { var k :| 0 <= k < |sources| - 1 && sources[k] == longer[i]; }
    }
  }

  /** Entry `k` is the first of one line with this form among its two. */
  ghost predicate FirstWith(entries: seq<TermEntry>, form: string, k: nat)
  {
    && k < |entries| && '\n' !in entries[k].zh && '\n' !in entries[k].en
    && (form == entries[k].zh || form == entries[k].en)
    && forall j :: 0 <= j < k ==>
         '\n' in entries[j].zh || '\n' in entries[j].en || (form != entries[j].zh && form != entries[j].en)
  }

  /**
   What can be locked: every form of at least two characters of an entry with two forms of one
   line, each with the official pair of the first entry that offers it.
   */
  lemma LockablesAre(entries: seq<TermEntry>)
    ensures forall l :: l in Lockables(entries) <==>
              |l.source| >= 2 && l.zh != "" && l.en != ""
              && exists k: nat :: FirstWith(entries, l.source, k) && entries[k] == TermEntry(l.zh, l.en)
    ensures DistinctSources(Lockables(entries))
    ensures forall l <- Lockables(entries) :: l.source == l.zh || l.source == l.en
  {
    hide DistinctSources, Sources, Filtered;
    SourcesAre(entries);
    FilteredAre(Sources(entries));
    forall l: Lockable, k: nat | l.source != ""
      ensures FirstOffer(entries, l, k) <==> FirstWith(entries, l.source, k) && entries[k] == TermEntry(l.zh, l.en)
    {
      OffersFirst(entries, l, k);
    }
  }

  lemma OffersFirst(entries: seq<TermEntry>, l: Lockable, k: nat)
    requires l.source != ""
    ensures FirstOffer(entries, l, k) <==> FirstWith(entries, l.source, k) && entries[k] == TermEntry(l.zh, l.en)
  {
  }

  /** The surfaces of two entries with four different forms. */
  lemma TwoEntries(a: TermEntry, b: TermEntry)
    requires a.Offers(a.zh) && a.Offers(a.en) && b.Offers(b.zh) && b.Offers(b.en)
    requires |a.zh| >= 2 && |a.en| >= 2 && |b.zh| >= 2 && |b.en| >= 2
    requires a.zh != a.en && b.zh != b.en && a.zh != b.zh && a.zh != b.en && a.en != b.zh && a.en != b.en
    ensures Lockables([a, b])
            == [Lockable(a.zh, a.zh, a.en), Lockable(a.en, a.zh, a.en), Lockable(b.zh, b.zh, b.en), Lockable(b.en, b.zh, b.en)]
  {
    var l0, l1 := Lockable(a.zh, a.zh, a.en), Lockable(a.en, a.zh, a.en);
    var l2, l3 := Lockable(b.zh, b.zh, b.en), Lockable(b.en, b.zh, b.en);
    assert [a, b][..1] == [a] && [a][..0] == [];
    assert Sources([]) == [] && Sources([a]) == [l0, l1];
    assert Sources([a, b]) == [l0, l1, l2, l3];
    AllFiltered([l0, l1, l2, l3]);
  }

  lemma {:induction false} AllFiltered(sources: seq<Lockable>)
    requires forall l <- sources :: l.Eligible()
    ensures Filtered(sources) == sources
  {
    if sources != [] {
      var n := |sources| - 1;
      assert sources == sources[..n] + [sources[n]] && sources[n] in sources;
      AllFiltered(sources[..n]);
    }
  }
}
