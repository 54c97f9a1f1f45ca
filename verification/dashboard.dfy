/** The dashboard as a whole: the three headline indicators computed from the cleaned set,
    and the page the CSV callback builds from raw rows (indicators, the top-10 artist series
    and the acoustic/energy balance). */
module Dashboard {
  import opened Options
  import opened Text
  import opened Cleaning
  import opened Indicators
  import opened ArtistTally
  import opened Balance

  /** The three headline indicators: the most streamed track, the rounded average tempo and
      the artist with the most tracks (with its count). */
  datatype Kpis = Kpis(topTrack: Track, meanBpm: int, topArtist: Entry)

  /** What the CSV callback puts on the page. */
  datatype Page = Page(kpis: Kpis, artists: seq<Entry>, balance: Option<(int, int)>)

  /** The indicators of a set of tracks. An empty set has none: the source reads a field of
      `undefined` there and stops with a TypeError, which `None` stands for. On ties the
      top track is the first of the most streamed tracks, and the top artist is the first
      met of the artists with the most tracks. */
  method ComputeIndicators(ts: seq<Track>) returns (r: Option<Kpis>)
    ensures r.None? <==> ts == []
    ensures r.Some? ==>
      && r.value.topTrack == TopTrack(ts)
      && (forall i :: 0 <= i < |ts| ==> ts[i].streams <= r.value.topTrack.streams)
      && (exists i :: 0 <= i < |ts| && ts[i] == r.value.topTrack
            && forall j :: 0 <= j < i ==> ts[j].streams < r.value.topTrack.streams)
      && r.value.meanBpm == MeanBpm(ts)
    ensures r.Some? ==>
      && r.value.topArtist.artist in Keys(ts)
      && r.value.topArtist.count == multiset(Keys(ts))[r.value.topArtist.artist]
      && (forall k :: k in Keys(ts) ==> multiset(Keys(ts))[k] <= r.value.topArtist.count)
      && var d := FirstAppearances(Keys(ts));
         exists p :: 0 <= p < |d| && d[p] == r.value.topArtist.artist
           && forall q :: 0 <= q < p ==> multiset(Keys(ts))[d[q]] < r.value.topArtist.count
  {
    if ts == [] {
      return None;
    }
    var best := TopArtist(ts);
    r := Some(Kpis(TopTrack(ts), MeanBpm(ts), best));
  }

  /** The page built from the raw CSV rows: nothing when no row survives cleaning (the
      indicators stop with an error before any chart is drawn); otherwise indicators whose
      top track is a valid record and whose average tempo is at least 1, at most ten artists
      in the bar chart, and the balance of the cleaned set. */
  method Render(rows: seq<RawRow>) returns (r: Option<Page>)
    ensures r.None? <==> Clean(rows) == []
    ensures r.Some? ==>
      && r.value.kpis.topTrack == TopTrack(Clean(rows))
      && Keep(r.value.kpis.topTrack)
      && r.value.kpis.meanBpm == MeanBpm(Clean(rows))
      && r.value.kpis.meanBpm >= 1
      && r.value.artists == TopTen(Counted(Keys(Clean(rows)), true))
      && |r.value.artists| <= 10
      && r.value.balance == Percentages(Clean(rows))
  {
    var ts := Clean(rows);
    var kpis := ComputeIndicators(ts);
    if kpis.None? {
      return None;
    }
    MeanBpmOfCleaned(rows);
    ValidMembers(Records(rows), kpis.value.topTrack);
    var artists := TopTenArtists(ts);
    r := Some(Page(kpis.value, artists, Percentages(ts)));
  }

  /** The sample track is tallied under its first credited artist, "A". */
  lemma SampleKey()
    ensures ArtistKey(Track("X", "A, B", 1000, 120, 50, 50, 50, 0, 0, 50)) == "A"
  {
    assert "A, B" == "A" + [','] + " B";
    BeforeFirstOf("A", ',', " B");
    TrimOfTrimmed("A");
  }
}
