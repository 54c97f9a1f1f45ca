/** The artist tally shared by the top-artist indicator and the top-10 bar chart: a
    dictionary from first credited artist to track count, filled by a loop over the tracks,
    read back in insertion order, then sorted by count with a stable sort. */
module ArtistTally {
  import opened Text
  import opened Cleaning

  /** One `[artist, count]` pair of `Object.entries(tally)`. */
  datatype Entry = Entry(artist: string, count: nat)

  /** The grouping key of a track (scriptDATAVIZ.js:233, 386): its credit cut at the first
      comma, then trimmed, that is the first credited artist. */
  function ArtistKey(t: Track): string {
    Trim(BeforeFirst(t.artist, ','))
  }

  /** The key holds no comma: a credit line "A, B" is counted under "A" alone. */
  lemma ArtistKeyNoComma(t: Track)
    ensures ',' !in ArtistKey(t)
  {
    TrimWithin(BeforeFirst(t.artist, ','), ',');
  }

  /** The key of every track, in track order. */
  function Keys(ts: seq<Track>): (ks: seq<string>)
    ensures |ks| == |ts|
  {
    seq(|ts|, i requires 0 <= i < |ts| => ArtistKey(ts[i]))
  }

  /** The keys the tally loop counts, in order: all of them, less the empty ones when
      `skipEmpty` (the bar chart skips an empty key, scriptDATAVIZ.js:387). */
  function Counted(keys: seq<string>, skipEmpty: bool): (ks: seq<string>)
    ensures |ks| <= |keys|
  {
    if keys == [] then []
    else
      var k := keys[|keys| - 1];
      Counted(keys[..|keys| - 1], skipEmpty) + (if skipEmpty && k == "" then [] else [k])
  }

  /** A key is counted exactly when it occurs and is not an empty key being skipped; without
      skipping every key is counted. */
  lemma {:induction false} CountedMembers(keys: seq<string>, skipEmpty: bool)
    ensures forall k :: k in Counted(keys, skipEmpty) <==> k in keys && !(skipEmpty && k == "")
    ensures !skipEmpty ==> Counted(keys, skipEmpty) == keys
  {
    if keys != [] {
      var init, k := keys[..|keys| - 1], keys[|keys| - 1];
      CountedMembers(init, skipEmpty);
      assert keys == init + [k];
    }
  }

  /** The counted keys of one more key: the same when it is skipped, one more otherwise. */
  lemma CountedStep(keys: seq<string>, i: int, skipEmpty: bool)
    requires 0 <= i < |keys|
    ensures skipEmpty && keys[i] == "" ==> Counted(keys[..i + 1], skipEmpty) == Counted(keys[..i], skipEmpty)
    ensures !(skipEmpty && keys[i] == "") ==>
      Counted(keys[..i + 1], skipEmpty) == Counted(keys[..i], skipEmpty) + [keys[i]]
  {
    assert keys[..i + 1][..i] == keys[..i];
    var c := Counted(keys[..i], skipEmpty);
    assert c + [] == c;
  }

  predicate NoDuplicates(d: seq<string>) {
    forall i, j :: 0 <= i < j < |d| ==> d[i] != d[j]
  }

  /** The distinct keys of `ks` in order of first appearance: the order in which the tally
      dictionary receives its keys. */
  function FirstAppearances(ks: seq<string>): seq<string> {
    if ks == [] then []
    else
      var d := FirstAppearances(ks[..|ks| - 1]);
      var k := ks[|ks| - 1];
      if k in d then d else d + [k]
  }

  /** The distinct keys hold every key of `ks` exactly once. */
  lemma {:induction false} FirstAppearancesFacts(ks: seq<string>)
    ensures NoDuplicates(FirstAppearances(ks))
    ensures forall k :: k in FirstAppearances(ks) <==> k in ks
  {
    if ks != [] {
      var init, k := ks[..|ks| - 1], ks[|ks| - 1];
      FirstAppearancesFacts(init);
      assert ks == init + [k];
    }
  }

  /** `Object.entries(tally)` for the keys `ks`: one entry per distinct key, in order of
      first appearance, holding the number of times the key occurs. */
  function Tally(ks: seq<string>): (es: seq<Entry>)
    ensures |es| == |FirstAppearances(ks)|
  {
    var d := FirstAppearances(ks);
    seq(|d|, i requires 0 <= i < |d| => Entry(d[i], multiset(ks)[d[i]]))
  }

  /** One more key joins the distinct keys at the end when it is new, and adds one to its
      own count. */
  lemma FirstAppearancesSnoc(ks: seq<string>, k: string)
    ensures FirstAppearances(ks + [k])
         == if k in FirstAppearances(ks) then FirstAppearances(ks) else FirstAppearances(ks) + [k]
    ensures multiset(ks + [k]) == multiset(ks) + multiset{k}
  {
    assert (ks + [k])[..|ks|] == ks;
  }

  /** The tally dictionary `counts`, with its keys in insertion order `order`, holds the
      tally of the keys `ks`. */
  ghost predicate Holds(counts: map<string, nat>, order: seq<string>, ks: seq<string>) {
    && order == FirstAppearances(ks)
    && (forall x :: x in counts <==> x in order)
    && (forall x :: x in counts ==> counts[x] == multiset(ks)[x])
  }

  /** One turn of the tally loop, which sets a key's count to its old count (0 when the key
      is new) plus one (scriptDATAVIZ.js:234, 388), keeps the dictionary in
      step with the keys counted so far. */
  lemma TallyStep(counts: map<string, nat>, order: seq<string>, before: seq<string>, k: string,
                  counts': map<string, nat>, order': seq<string>, after: seq<string>)
    requires Holds(counts, order, before)
    requires counts' == counts[k := if k in counts then counts[k] + 1 else 1]
    requires order' == if k in counts then order else order + [k]
    requires after == before + [k]
    ensures Holds(counts', order', after)
  {
    FirstAppearancesSnoc(before, k);
    FirstAppearancesFacts(before);
  }

  /** Reading the dictionary back in insertion order gives the tally. */
  lemma EntriesOfCounts(counts: map<string, nat>, order: seq<string>, ks: seq<string>, entries: seq<Entry>)
    requires Holds(counts, order, ks)
    requires |entries| == |order|
    requires forall j :: 0 <= j < |order| ==> entries[j] == Entry(order[j], counts[order[j]])
    ensures entries == Tally(ks)
  {
  }

  /** The tally loop: counts every key, or every non-empty one when `skipEmpty`, in a
      dictionary that keeps its keys in insertion order, and returns its entries. */
  method CountKeys(keys: seq<string>, skipEmpty: bool) returns (entries: seq<Entry>)
    ensures entries == Tally(Counted(keys, skipEmpty))
  {
    var counts: map<string, nat> := map[];
    var order: seq<string> := [];
    ghost var counted: seq<string> := [];
    for i := 0 to |keys|
      invariant counted == Counted(keys[..i], skipEmpty)
      invariant Holds(counts, order, counted)
    {
      var artist := keys[i];
      CountedStep(keys, i, skipEmpty);
      if !skipEmpty || artist != "" {
        ghost var counts0, order0, counted0 := counts, order, counted;
        var seen := if artist in counts then counts[artist] else 0;
        if artist !in counts {
          order := order + [artist];
        }
        counts := counts[artist := seen + 1];
        counted := counted + [artist];
        TallyStep(counts0, order0, counted0, artist, counts, order, counted);
      }
    }
    assert keys[..|keys|] == keys;
    entries := seq(|order|, j requires 0 <= j < |order| => Entry(order[j], counts[order[j]]));
    EntriesOfCounts(counts, order, counted, entries);
  }

  /** The tally of the tracks' keys: the loop above, fed with the first credited artist of
      each track. */
  method CountArtists(ts: seq<Track>, skipEmpty: bool) returns (entries: seq<Entry>)
    ensures entries == Tally(Counted(Keys(ts), skipEmpty))
  {
    entries := CountKeys(Keys(ts), skipEmpty);
  }

  /** The tally lists each counted key once, with the number of times it was counted
      (at least once), and nothing else. */
  lemma TallyEntries(ks: seq<string>)
    ensures forall i :: 0 <= i < |Tally(ks)| ==>
      Tally(ks)[i].artist in ks && Tally(ks)[i].count == multiset(ks)[Tally(ks)[i].artist] >= 1
    ensures forall i, j :: 0 <= i < j < |Tally(ks)| ==> Tally(ks)[i].artist != Tally(ks)[j].artist
    ensures forall k :: k in ks ==> exists i :: 0 <= i < |Tally(ks)| && Tally(ks)[i].artist == k
  {
    var d := FirstAppearances(ks);
    FirstAppearancesFacts(ks);
    forall i | 0 <= i < |Tally(ks)|
      ensures Tally(ks)[i].artist in ks && Tally(ks)[i].count == multiset(ks)[Tally(ks)[i].artist] >= 1
    {
      assert Tally(ks)[i] == Entry(d[i], multiset(ks)[d[i]]) && d[i] in d;
    }
    forall k | k in ks
      ensures exists i :: 0 <= i < |Tally(ks)| && Tally(ks)[i].artist == k
    {
      var i :| 0 <= i < |d| && d[i] == k;
      assert Tally(ks)[i].artist == k;
    }
  }

  function SumCounts(es: seq<Entry>): int {
    if es == [] then 0 else SumCounts(es[..|es| - 1]) + es[|es| - 1].count
  }

  /** The counts of the tally add up to the number of keys counted. */
  lemma {:induction false} TallySum(ks: seq<string>)
    ensures SumCounts(Tally(ks)) == |ks|
  {
    TallyIsOccurrences(ks);
    OccurrencesTotal(ks);
  }

  /** The sum of the occurrence counts in `m` of the keys `d`. */
  function Occurrences(d: seq<string>, m: multiset<string>): int {
    if d == [] then 0 else Occurrences(d[..|d| - 1], m) + m[d[|d| - 1]]
  }

  lemma {:induction false} SumCountsOfEntries(d: seq<string>, ks: seq<string>, es: seq<Entry>)
    requires |es| == |d|
    requires forall i :: 0 <= i < |d| ==> es[i] == Entry(d[i], multiset(ks)[d[i]])
    ensures SumCounts(es) == Occurrences(d, multiset(ks))
  {
    if d != [] {
      SumCountsOfEntries(d[..|d| - 1], ks, es[..|es| - 1]);
    }
  }

  lemma TallyIsOccurrences(ks: seq<string>)
    ensures SumCounts(Tally(ks)) == Occurrences(FirstAppearances(ks), multiset(ks))
  {
    SumCountsOfEntries(FirstAppearances(ks), ks, Tally(ks));
  }

  lemma {:induction false} OccurrencesTotal(ks: seq<string>)
    ensures Occurrences(FirstAppearances(ks), multiset(ks)) == |ks|
  {
    if ks != [] {
      var init, k := ks[..|ks| - 1], ks[|ks| - 1];
      assert ks == init + [k];
      var d := FirstAppearances(init);
      FirstAppearancesFacts(init);
      OccurrencesTotal(init);
      OccurrencesAdd(d, multiset(init), k);
      if k !in d {
        assert multiset(init)[k] == 0;
        assert (d + [k])[..|d|] == d;
      }
    }
  }

  /** One more occurrence of `k` adds one to the sum when `k` is among the distinct keys. */
  lemma {:induction false} OccurrencesAdd(d: seq<string>, m: multiset<string>, k: string)
    requires NoDuplicates(d)
    ensures Occurrences(d, m + multiset{k}) == Occurrences(d, m) + (if k in d then 1 else 0)
  {
    if d != [] {
      var init := d[..|d| - 1];
      assert NoDuplicates(init);
      assert k in d <==> k in init || k == d[|d| - 1] by {
        assert d == init + [d[|d| - 1]];
      }
      assert k == d[|d| - 1] ==> k !in init;
      OccurrencesAdd(init, m, k);
    }
  }

  // ---------------------------------------------------------------------------------------
  // The tally's entries sorted by decreasing count (scriptDATAVIZ.js:237-238, 393-394); the
  // sort is stable, so entries with equal counts keep their insertion order.
  // ---------------------------------------------------------------------------------------

  predicate Descending(s: seq<Entry>) {
    forall i, j :: 0 <= i < j < |s| ==> s[i].count >= s[j].count
  }

  predicate DistinctArtists(s: seq<Entry>) {
    forall i, j :: 0 <= i < j < |s| ==> s[i].artist != s[j].artist
  }

  /** Places `x` after every entry whose count is at least its own. */
  function InsertByCount(s: seq<Entry>, x: Entry): (r: seq<Entry>)
    ensures |r| == |s| + 1
  {
    if s == [] then [x]
    else if s[0].count >= x.count then [s[0]] + InsertByCount(s[1..], x)
    else [x] + s
  }

  /** Insertion adds `x` and loses nothing. */
  lemma {:induction false} InsertPermutation(s: seq<Entry>, x: Entry)
    ensures multiset(InsertByCount(s, x)) == multiset(s) + multiset{x}
  {
    if s != [] && s[0].count >= x.count {
      InsertPermutation(s[1..], x);
      assert s == [s[0]] + s[1..];
    }
  }

  /** The head after an insertion is the old head unless `x` has a strictly larger count. */
  lemma InsertHead(s: seq<Entry>, x: Entry)
    ensures InsertByCount(s, x)[0] == if s != [] && s[0].count >= x.count then s[0] else x
  {
  }

  /** Inserting into a list sorted by decreasing count keeps it sorted. */
  lemma {:induction false} InsertDescending(s: seq<Entry>, x: Entry)
    requires Descending(s)
    ensures Descending(InsertByCount(s, x))
  {
    if s != [] && s[0].count >= x.count {
      var rest := s[1..];
      assert Descending(rest);
      InsertDescending(rest, x);
      InsertHead(rest, x);
      ConsDescending(s[0], InsertByCount(rest, x));
    } else {
      ConsDescending(x, s);
    }
  }

  /** An entry whose count is at least that of a sorted list's head can go in front of it. */
  lemma ConsDescending(a: Entry, t: seq<Entry>)
    requires Descending(t)
    requires t == [] || t[0].count <= a.count
    ensures Descending([a] + t)
  {
    var r := [a] + t;
    forall i, j | 0 <= i < j < |r|
      ensures r[i].count >= r[j].count
    {
      assert r[j] == t[j - 1];
      if i > 0 {
        assert r[i] == t[i - 1];
      } else if j > 1 {
        assert t[0].count >= t[j - 1].count;
      }
    }
  }

  /** The entries sorted by decreasing count; entries with equal counts keep their order
      (see SortStable), as `Array.prototype.sort` guarantees. */
  function SortByCount(s: seq<Entry>): (r: seq<Entry>)
    ensures |r| == |s|
  {
    if s == [] then [] else InsertByCount(SortByCount(s[..|s| - 1]), s[|s| - 1])
  }

  /** The sort is a permutation: the same entries, each as often. */
  lemma {:induction false} SortPermutation(s: seq<Entry>)
    ensures multiset(SortByCount(s)) == multiset(s)
  {
    if s != [] {
      var init, x := s[..|s| - 1], s[|s| - 1];
      SortPermutation(init);
      InsertPermutation(SortByCount(init), x);
      assert s == init + [x];
    }
  }

  /** The sort orders the entries by decreasing count. */
  lemma {:induction false} SortDescending(s: seq<Entry>)
    ensures Descending(SortByCount(s))
  {
    if s != [] {
      SortDescending(s[..|s| - 1]);
      InsertDescending(SortByCount(s[..|s| - 1]), s[|s| - 1]);
    }
  }

  /** The entries with count `c`, in order. */
  function WithCount(s: seq<Entry>, c: nat): seq<Entry> {
    if s == [] then [] else WithCount(s[..|s| - 1], c) + (if s[|s| - 1].count == c then [s[|s| - 1]] else [])
  }

  lemma {:induction false} WithCountCons(x: Entry, s: seq<Entry>, c: nat)
    ensures WithCount([x] + s, c) == (if x.count == c then [x] else []) + WithCount(s, c)
  {
    if s != [] {
      var init := s[..|s| - 1];
      assert ([x] + s)[..|s|] == [x] + init;
      WithCountCons(x, init, c);
    } else {
      assert ([x] + s)[..0] == [];
    }
  }

  lemma {:induction false} WithCountNone(s: seq<Entry>, c: nat)
    requires forall i :: 0 <= i < |s| ==> s[i].count != c
    ensures WithCount(s, c) == []
  {
    if s != [] {
      WithCountNone(s[..|s| - 1], c);
    }
  }

  /** Inserting `x` into a sorted list appends it to the entries of its own count and leaves
      the order of every other count alone. */
  lemma {:induction false} InsertStable(s: seq<Entry>, x: Entry, c: nat)
    requires Descending(s)
    ensures WithCount(InsertByCount(s, x), c) == WithCount(s, c) + (if x.count == c then [x] else [])
  {
    if s == [] {
      assert [x][..0] == [];
    } else if s[0].count >= x.count {
      var rest := s[1..];
      assert s == [s[0]] + rest;
      assert Descending(rest) by {
        forall i, j | 0 <= i < j < |rest|
          ensures rest[i].count >= rest[j].count
        {
          assert rest[i] == s[i + 1] && rest[j] == s[j + 1];
        }
      }
      var hd := if s[0].count == c then [s[0]] else [];
      var tl := if x.count == c then [x] else [];
      calc {
        WithCount(InsertByCount(s, x), c);
        WithCount([s[0]] + InsertByCount(rest, x), c);
      == { WithCountCons(s[0], InsertByCount(rest, x), c); }
        hd + WithCount(InsertByCount(rest, x), c);
      == { InsertStable(rest, x, c); }
        hd + (WithCount(rest, c) + tl);
      == { AppendAssoc(hd, WithCount(rest, c), tl); }
        (hd + WithCount(rest, c)) + tl;
      == { WithCountCons(s[0], rest, c); }
        WithCount(s, c) + tl;
      }
    } else {
      assert forall i :: 0 <= i < |s| ==> s[i].count <= s[0].count;
      StableSwapLast(x, s, c);
    }
  }

  /** When `x` outranks all of `s`, putting it first or last makes no difference to the
      entries of any one count. */
  lemma StableSwapLast(x: Entry, s: seq<Entry>, c: nat)
    requires forall i :: 0 <= i < |s| ==> s[i].count < x.count
    ensures WithCount([x] + s, c) == WithCount(s, c) + (if x.count == c then [x] else [])
  {
    WithCountCons(x, s, c);
    if x.count == c {
      WithCountNone(s, c);
    }
  }

  /** The sort is stable: for every count, the entries with that count come out in the order
      they went in. */
  lemma {:induction false} SortStable(s: seq<Entry>, c: nat)
    ensures WithCount(SortByCount(s), c) == WithCount(s, c)
  {
    if s != [] {
      var init, x := s[..|s| - 1], s[|s| - 1];
      SortStable(init, c);
      SortDescending(init);
      InsertStable(SortByCount(init), x, c);
    }
  }

  /** The first entry after sorting is the first entry of `s` with the largest count. */
  lemma {:induction false} SortHead(s: seq<Entry>)
    requires s != []
    ensures forall i :: 0 <= i < |s| ==> s[i].count <= SortByCount(s)[0].count
    ensures exists p ::
      && 0 <= p < |s|
      && s[p] == SortByCount(s)[0]
      && forall q :: 0 <= q < p ==> s[q].count < SortByCount(s)[0].count
  {
    var init, x := s[..|s| - 1], s[|s| - 1];
    var sorted := SortByCount(init);
    assert SortByCount(s)[0] == InsertByCount(sorted, x)[0];
    InsertHead(sorted, x);
    if init == [] {
      assert SortByCount(s)[0] == x == s[0];
    } else {
      SortHead(init);
      var g := sorted[0];
      var p :| 0 <= p < |init| && init[p] == g && forall q :: 0 <= q < p ==> init[q].count < g.count;
      assert forall i :: 0 <= i < |init| ==> init[i] == s[i];
      FirstMaximumStep(s, g, p);
    }
  }

  /** One step of SortHead: `g` is the first maximum of all but the last entry of `s`; the
      last entry replaces it only with a strictly larger count. */
  lemma FirstMaximumStep(s: seq<Entry>, g: Entry, p: int)
    requires 0 <= p < |s| - 1 && s[p] == g
    requires forall i :: 0 <= i < |s| - 1 ==> s[i].count <= g.count
    requires forall q :: 0 <= q < p ==> s[q].count < g.count
    ensures var h := if g.count >= s[|s| - 1].count then g else s[|s| - 1];
      && (forall i :: 0 <= i < |s| ==> s[i].count <= h.count)
      && exists p' ::
        && 0 <= p' < |s|
        && s[p'] == h
        && forall q :: 0 <= q < p' ==> s[q].count < h.count
  {
  }

  /** Sorting keeps distinct artists distinct. */
  lemma {:induction false} SortDistinct(s: seq<Entry>)
    requires DistinctArtists(s)
    ensures DistinctArtists(SortByCount(s))
  {
    if s != [] {
      var init, x := s[..|s| - 1], s[|s| - 1];
      assert DistinctArtists(init);
      SortDistinct(init);
      var r := SortByCount(init);
      SortPermutation(init);
      forall e | e in r
        ensures e.artist != x.artist
      {
        assert e in multiset(r);
        assert e in init;
      }
      InsertDistinct(r, x);
    }
  }

  lemma {:induction false} InsertDistinct(s: seq<Entry>, x: Entry)
    requires DistinctArtists(s)
    requires forall e :: e in s ==> e.artist != x.artist
    ensures DistinctArtists(InsertByCount(s, x))
  {
    if s != [] && s[0].count >= x.count {
      var rest := s[1..];
      assert DistinctArtists(rest);
      InsertDistinct(rest, x);
      var r := InsertByCount(rest, x);
      InsertPermutation(rest, x);
      forall e | e in r
        ensures e.artist != s[0].artist
      {
        assert e in multiset(r);
        assert e in rest || e == x;
      }
    }
  }

  // ---------------------------------------------------------------------------------------
  // The top artist indicator and the top-10 series
  // ---------------------------------------------------------------------------------------

  /** The head of the sorted tally of a non-empty key list: a key with the largest count, and
      of the keys with that count the one that appears first. */
  lemma TallyHead(ks: seq<string>)
    requires ks != []
    ensures |SortByCount(Tally(ks))| > 0
    ensures SortByCount(Tally(ks))[0].artist in ks
    ensures SortByCount(Tally(ks))[0].count == multiset(ks)[SortByCount(Tally(ks))[0].artist]
    ensures forall k :: k in ks ==> multiset(ks)[k] <= SortByCount(Tally(ks))[0].count
    ensures exists p ::
      && 0 <= p < |FirstAppearances(ks)|
      && FirstAppearances(ks)[p] == SortByCount(Tally(ks))[0].artist
      && forall q :: 0 <= q < p ==> multiset(ks)[FirstAppearances(ks)[q]] < SortByCount(Tally(ks))[0].count
  {
    var entries, d := Tally(ks), FirstAppearances(ks);
    TallyEntries(ks);
    assert ks[0] in ks;
    SortHead(entries);
    var best := SortByCount(entries)[0];
    forall k | k in ks
      ensures multiset(ks)[k] <= best.count
    {
      var i :| 0 <= i < |entries| && entries[i].artist == k;
    }
    var p :| 0 <= p < |entries| && entries[p] == best
             && forall q :: 0 <= q < p ==> entries[q].count < best.count;
    assert d[p] == best.artist;
    forall q | 0 <= q < p
      ensures multiset(ks)[d[q]] < best.count
    {
      assert entries[q].count == multiset(ks)[d[q]];
    }
    assert 0 <= p < |d| && d[p] == best.artist
        && forall q :: 0 <= q < p ==> multiset(ks)[d[q]] < best.count;
  }

  /** The top artist of a non-empty set: the head of the sorted tally. Its count is the
      number of tracks it leads, no artist leads more, and of the artists with that count it
      is the one whose first track comes first. */
  method TopArtist(ts: seq<Track>) returns (best: Entry)
    requires ts != []
    ensures var ks := Keys(ts);
      && best.artist in ks
      && best.count == multiset(ks)[best.artist]
      && (forall k :: k in ks ==> multiset(ks)[k] <= best.count)
    ensures var ks := Keys(ts);
      var d := FirstAppearances(ks);
      exists p :: 0 <= p < |d| && d[p] == best.artist
        && forall q :: 0 <= q < p ==> multiset(ks)[d[q]] < best.count
  {
    var entries := CountArtists(ts, false);
    CountedMembers(Keys(ts), false);
    TallyHead(Keys(ts));
    var sorted := SortByCount(entries);
    best := sorted[0];
  }

  function Min(a: int, b: int): int {
    if a <= b then a else b
  }

  function Reverse(s: seq<Entry>): (r: seq<Entry>)
    ensures |r| == |s|
    ensures forall i :: 0 <= i < |s| ==> r[i] == s[|s| - 1 - i]
  {
    if s == [] then [] else Reverse(s[1..]) + [s[0]]
  }

  /** The first ten entries of the sorted tally, in reverse. */
  function TopTen(ks: seq<string>): seq<Entry> {
    var sorted := SortByCount(Tally(ks));
    Reverse(sorted[..Min(10, |sorted|)])
  }

  /** The first `m` entries of a list sorted by decreasing count, reversed: they come in
      increasing count, and every entry past the first `m` has at most the smallest count
      kept. */
  lemma ReversedPrefix(sorted: seq<Entry>, m: int)
    requires 0 <= m <= |sorted| && (sorted != [] ==> m > 0)
    requires Descending(sorted)
    ensures var top := Reverse(sorted[..m]);
      && |top| == m
      && (forall i :: 0 <= i < m ==> top[i] == sorted[m - 1 - i])
      && (forall j :: 0 <= j < m ==> sorted[j] == top[m - 1 - j])
      && (forall i, j :: 0 <= i < j < m ==> top[i].count <= top[j].count)
      && (forall j :: m <= j < |sorted| ==> m > 0 && sorted[j].count <= top[0].count)
  {
    var top := Reverse(sorted[..m]);
    forall j | m <= j < |sorted|
      ensures sorted[j].count <= top[0].count
    {
      assert top[0] == sorted[m - 1];
    }
  }

  /** The chart series of a key list has as many entries as there are distinct keys, up to
      ten, in increasing count. */
  lemma TopTenShape(ks: seq<string>)
    ensures |TopTen(ks)| == Min(10, |FirstAppearances(ks)|)
    ensures forall i, j :: 0 <= i < j < |TopTen(ks)| ==> TopTen(ks)[i].count <= TopTen(ks)[j].count
  {
    var sorted := SortByCount(Tally(ks));
    SortDescending(Tally(ks));
    ReversedPrefix(sorted, Min(10, |sorted|));
  }

  /** Every entry of the chart series is a key with its true count. */
  lemma TopTenCounts(ks: seq<string>)
    ensures forall i :: 0 <= i < |TopTen(ks)| ==>
      TopTen(ks)[i].artist in ks && TopTen(ks)[i].count == multiset(ks)[TopTen(ks)[i].artist]
  {
    var entries := Tally(ks);
    var sorted := SortByCount(entries);
    var top := TopTen(ks);
    SortDescending(entries);
    SortPermutation(entries);
    ReversedPrefix(sorted, Min(10, |sorted|));
    TallyEntries(ks);
    forall i | 0 <= i < |top|
      ensures top[i].artist in ks && top[i].count == multiset(ks)[top[i].artist]
    {
      assert top[i] in multiset(sorted);
    }
  }

  /** No key appears twice in the chart series. */
  lemma TopTenDistinct(ks: seq<string>)
    ensures forall i, j :: 0 <= i < j < |TopTen(ks)| ==> TopTen(ks)[i].artist != TopTen(ks)[j].artist
  {
    var entries := Tally(ks);
    var sorted := SortByCount(entries);
    var m := Min(10, |sorted|);
    SortDescending(entries);
    ReversedPrefix(sorted, m);
    TallyEntries(ks);
    SortDistinct(entries);
    var top := TopTen(ks);
    forall i, j | 0 <= i < j < |top|
      ensures top[i].artist != top[j].artist
    {
      assert top[i] == sorted[m - 1 - i] && top[j] == sorted[m - 1 - j];
    }
  }

  /** Every key left out of the chart series has at most the smallest count shown. */
  lemma TopTenExcluded(ks: seq<string>)
    ensures forall k :: k in ks && (forall i :: 0 <= i < |TopTen(ks)| ==> TopTen(ks)[i].artist != k) ==>
      |TopTen(ks)| > 0 && multiset(ks)[k] <= TopTen(ks)[0].count
  {
    var entries := Tally(ks);
    var sorted := SortByCount(entries);
    var m := Min(10, |sorted|);
    var top := TopTen(ks);
    SortDescending(entries);
    SortPermutation(entries);
    ReversedPrefix(sorted, m);
    TallyEntries(ks);
    forall k | k in ks && (forall i :: 0 <= i < |top| ==> top[i].artist != k)
      ensures |top| > 0 && multiset(ks)[k] <= top[0].count
    {
      var i :| 0 <= i < |entries| && entries[i].artist == k;
      assert entries[i] in multiset(sorted);
      forall q | 0 <= q < m
        ensures sorted[q].artist != k
      {
        assert sorted[q] == top[m - 1 - q];
      }
      PastPrefix(sorted, m, entries[i]);
      assert top[0] == sorted[m - 1];
    }
  }

  /** In a list sorted by decreasing count, an entry whose artist is not among the first `m`
      counts no more than the `m`-th entry. */
  lemma PastPrefix(sorted: seq<Entry>, m: int, e: Entry)
    requires Descending(sorted) && 0 < m <= |sorted|
    requires e in sorted
    requires forall q :: 0 <= q < m ==> sorted[q].artist != e.artist
    ensures e.count <= sorted[m - 1].count
  {
    var j :| 0 <= j < |sorted| && sorted[j] == e;
    assert m <= j;
  }

  /** With the empty-name guard, every bar names a non-empty key of `keys` with the number of
      times it occurs. */
  lemma TopTenNamed(keys: seq<string>)
    ensures var ks := Counted(keys, true);
      forall i :: 0 <= i < |TopTen(ks)| ==>
        && TopTen(ks)[i].artist != ""
        && TopTen(ks)[i].artist in keys
        && TopTen(ks)[i].count == multiset(ks)[TopTen(ks)[i].artist]
  {
    CountedMembers(keys, true);
    TopTenCounts(Counted(keys, true));
  }

  /** With the empty-name guard, every non-empty key of `keys` left out of the series has at
      most the smallest count shown. */
  lemma TopTenOmitted(keys: seq<string>)
    ensures var ks := Counted(keys, true);
      forall k :: k in keys && k != "" && (forall i :: 0 <= i < |TopTen(ks)| ==> TopTen(ks)[i].artist != k) ==>
        |TopTen(ks)| > 0 && multiset(ks)[k] <= TopTen(ks)[0].count
  {
    CountedMembers(keys, true);
    TopTenExcluded(Counted(keys, true));
  }

  /** The bar chart's series: the ten non-empty artists with the most tracks (fewer when
      there are fewer artists), listed from the smallest count to the largest, each with its
      number of tracks. Every artist left out has at most the smallest count shown. The result
      is the reference series `TopTen`, so among artists with equal counts the first met win
      the last bars. */
  method TopTenArtists(ts: seq<Track>) returns (top: seq<Entry>)
    ensures top == TopTen(Counted(Keys(ts), true))
    ensures var ks := Counted(Keys(ts), true);
      |top| == Min(10, |FirstAppearances(ks)|)
    ensures forall i, j :: 0 <= i < j < |top| ==> top[i].count <= top[j].count
    ensures var ks := Counted(Keys(ts), true);
      forall i :: 0 <= i < |top| ==>
        top[i].artist != "" && top[i].artist in Keys(ts) && top[i].count == multiset(ks)[top[i].artist]
    ensures forall i, j :: 0 <= i < j < |top| ==> top[i].artist != top[j].artist
    ensures var ks := Counted(Keys(ts), true);
      forall k :: k in Keys(ts) && k != "" && (forall i :: 0 <= i < |top| ==> top[i].artist != k) ==>
        |top| > 0 && multiset(ks)[k] <= top[0].count
  {
    var entries := CountArtists(ts, true);
    var sorted := SortByCount(entries);
    var shown := sorted[..Min(10, |sorted|)];
    top := Reverse(shown);
    assert top == TopTen(Counted(Keys(ts), true));
    TopTenOfTracks(Keys(ts), top);
  }

  /** The properties of the bar chart's series, gathered for the keys of a set of tracks. */
  lemma TopTenOfTracks(keys: seq<string>, top: seq<Entry>)
    requires top == TopTen(Counted(keys, true))
    ensures var ks := Counted(keys, true);
      |top| == Min(10, |FirstAppearances(ks)|)
    ensures forall i, j :: 0 <= i < j < |top| ==> top[i].count <= top[j].count
    ensures var ks := Counted(keys, true);
      forall i :: 0 <= i < |top| ==>
        top[i].artist != "" && top[i].artist in keys && top[i].count == multiset(ks)[top[i].artist]
    ensures forall i, j :: 0 <= i < j < |top| ==> top[i].artist != top[j].artist
    ensures var ks := Counted(keys, true);
      forall k :: k in keys && k != "" && (forall i :: 0 <= i < |top| ==> top[i].artist != k) ==>
        |top| > 0 && multiset(ks)[k] <= top[0].count
  {
    var ks := Counted(keys, true);
    TopTenShape(ks);
    TopTenDistinct(ks);
    TopTenNamed(keys);
    TopTenOmitted(keys);
  }
}
