/**
 * The database the success callbacks build: `database.albums`, keyed by
 * album name, and `database.paths`, keyed by album page path. Each
 * callback adds one prepared track; the two objects are modelled by their
 * entries together with their keys in creation order, which is the order
 * `Object.keys` later reads them in.
 */
module Aggregate {
  import opened Wrappers
  import opened JsStrings
  import opened Tracks
  import opened Helpers
  import StableSort
  import JsNumber
  import JsObject
  import Collections

  /** An entry of `database.albums`: the page name and the tracks, ordered by track number. */
  datatype Album = Album(link: string, tracks: seq<Track>)

  /**
   * An entry of `database.paths`: the data of one album page. Its `type`
   * is always "album" and is left implicit. Its `tracks` is the very array
   * the album holds, so the page always lists the album's current tracks.
   */
  datatype AlbumPage = AlbumPage(album: string, title: string, artist: Option<string>, tracks: seq<Track>)

  /** Both keyed objects of the database, each with its keys in creation order. */
  datatype Store = Store(
    albums: map<string, Album>,
    albumOrder: seq<string>,
    paths: map<string, AlbumPage>,
    pathOrder: seq<string>)

  /** The database before the first callback. */
  const Empty: Store := Store(map[], [], map[], [])

  /** The key of an album's page in `database.paths`, which is also where the page is written. */
  function PagePath(name: string): string {
    "/albums/" + TidyURL(name)
  }

  /** The tracks stored for an album so far; none before its first track. */
  function AlbumTracks(s: Store, name: string): seq<Track> {
    if name in s.albums then s.albums[name].tracks else []
  }

  /** The tracks stored for an album are ordered by the comparator `parseInt(a.track) - parseInt(b.track)`. */
  function SortTracks(tracks: seq<Track>): seq<Track> {
    StableSort.SortByKey(tracks, TrackNumber)
  }

  /**
   * The album entry after a callback with track `t`: the existing entry,
   * or a fresh one linked to the tidied name, with `t` pushed and the
   * tracks sorted by track number.
   */
  function FiledAlbum(s: Store, t: Track): (a: Album)
    ensures multiset(a.tracks) == multiset(AlbumTracks(s, t.album)) + multiset{t}
    ensures a.link == if t.album in s.albums then s.albums[t.album].link else TidyURL(t.album)
  {
    var album := if t.album in s.albums then s.albums[t.album] else Album(TidyURL(t.album), []);
    album.(tracks := SortTracks(album.tracks + [t]))
  }

  /**
   * What one success callback does to the database with its prepared
   * track: create the album when it has no entry, push the track and sort
   * the album's tracks by track number, then (re)write the album's page
   * entry with the title and artist of this track.
   */
  function AddTrack(s: Store, t: Track): Store
  {
    var name := t.album;
    var album := FiledAlbum(s, t);
    var url := PagePath(name);
    Store(
      s.albums[name := album],
      if name in s.albums then s.albumOrder else s.albumOrder + [name],
      s.paths[url := AlbumPage(name, name + " | " + ToText(t.artist), t.artist, album.tracks)],
      if url in s.paths then s.pathOrder else s.pathOrder + [url])
  }

  predicate Distinct<T(==)>(xs: seq<T>) {
    forall i, j :: 0 <= i < j < |xs| ==> xs[i] != xs[j]
  }

  /** An album entry as the callbacks leave it. */
  predicate WellFormedAlbum(name: string, a: Album) {
    && a.link == TidyURL(name)
    && a.tracks != []
    && (forall i :: 0 <= i < |a.tracks| ==> a.tracks[i].album == name)
    && StableSort.Settled(a.tracks, TrackNumber)
  }

  /** A page entry belongs to an album, sits at that album's page path and lists that album's tracks. */
  predicate WellFormedPage(s: Store, p: string) {
    p in s.paths &&
    var page := s.paths[p];
    page.album in s.albums && p == PagePath(page.album) && page.tracks == s.albums[page.album].tracks
  }

  /**
   * What holds of the database between callbacks: the key orders list
   * each key once, every album is well formed and has a page entry, and
   * every page entry is the page of an album.
   */
  predicate Consistent(s: Store) {
    && (forall n :: n in s.albums ==> n in s.albumOrder)
    && (forall n :: n in s.albumOrder ==> n in s.albums)
    && Distinct(s.albumOrder)
    && (forall p :: p in s.paths ==> p in s.pathOrder)
    && (forall p :: p in s.pathOrder ==> p in s.paths)
    && Distinct(s.pathOrder)
    && (forall n :: n in s.albums ==> WellFormedAlbum(n, s.albums[n]) && PagePath(n) in s.paths)
    && (forall p :: p in s.paths ==> WellFormedPage(s, p))
  }

  lemma DistinctSnoc<T>(xs: seq<T>, x: T)
    requires Distinct(xs) && x !in xs
    ensures Distinct(xs + [x])
  {
    var ys := xs + [x];
    forall i, j | 0 <= i < j < |ys| ensures ys[i] != ys[j] {
      assert ys[i] == xs[i];
      if j < |xs| { assert ys[j] == xs[j]; }
    }
  }

  /** Filing a track keeps an album entry well formed, and a new entry is well formed. */
  lemma FiledAlbumWellFormed(s: Store, t: Track)
    requires t.album in s.albums ==> WellFormedAlbum(t.album, s.albums[t.album])
    ensures WellFormedAlbum(t.album, FiledAlbum(s, t))
  {
    var tracks := FiledAlbum(s, t).tracks;
    var before := AlbumTracks(s, t.album);
    StableSort.SortByKeySettled(before + [t], TrackNumber);
    assert tracks != [] by {
      assert t in multiset(tracks);
    }
    forall i | 0 <= i < |tracks| ensures tracks[i].album == t.album {
      assert tracks[i] in multiset(before) + multiset{t};
      if tracks[i] != t {
        assert tracks[i] in before;
      }
    }
  }

  lemma AddTrackAlbumWellFormed(s: Store, t: Track)
    requires Consistent(s)
    ensures WellFormedAlbum(t.album, AddTrack(s, t).albums[t.album])
  {
    FiledAlbumWellFormed(s, t);
    assert AddTrack(s, t).albums[t.album] == FiledAlbum(s, t);
  }

  /** A callback adds the album and its page path to the keys, and no other key. */
  lemma AddTrackKeys(s: Store, t: Track)
    ensures AddTrack(s, t).albums.Keys == s.albums.Keys + {t.album}
    ensures AddTrack(s, t).paths.Keys == s.paths.Keys + {PagePath(t.album)}
  {
    var a := FiledAlbum(s, t);
    var page := AlbumPage(t.album, t.album + " | " + ToText(t.artist), t.artist, a.tracks);
    assert AddTrack(s, t).albums == s.albums[t.album := a];
    assert AddTrack(s, t).paths == s.paths[PagePath(t.album) := page];
    Collections.UpdateKeys(s.albums, t.album, a);
    Collections.UpdateKeys(s.paths, PagePath(t.album), page);
  }

  /**
   * The entries a callback writes: the album holds its old tracks and the
   * new one, keeps its link (the tidied name when it is new), and its page
   * names it and lists the album's tracks.
   */
  lemma AddTrackEntry(s: Store, t: Track)
    ensures var r := AddTrack(s, t);
      && t.album in r.albums && PagePath(t.album) in r.paths
      && multiset(r.albums[t.album].tracks) == multiset(AlbumTracks(s, t.album)) + multiset{t}
      && r.albums[t.album].link == (if t.album in s.albums then s.albums[t.album].link else TidyURL(t.album))
      && r.paths[PagePath(t.album)].album == t.album
      && r.paths[PagePath(t.album)].tracks == r.albums[t.album].tracks
      && r.paths[PagePath(t.album)].artist == t.artist
      && r.paths[PagePath(t.album)].title == t.album + " | " + ToText(t.artist)
  {
    var a := FiledAlbum(s, t);
    assert AddTrack(s, t).albums[t.album] == a;
    assert AddTrack(s, t).paths[PagePath(t.album)].tracks == a.tracks;
  }

  /** A callback leaves every other page entry as it was. */
  lemma AddTrackOtherPage(s: Store, t: Track, p: string)
    requires p in s.paths && p != PagePath(t.album)
    ensures AddTrack(s, t).paths[p] == s.paths[p]
  {
  }

  /** A callback leaves every other album's entry as it was. */
  lemma AddTrackOtherAlbum(s: Store, t: Track, n: string)
    requires n in s.albums && n != t.album
    ensures AddTrack(s, t).albums[n] == s.albums[n]
  {
  }

  lemma AddTrackKeyOrders(s: Store, t: Track)
    requires Consistent(s)
    ensures var r := AddTrack(s, t);
      && (forall n :: n in r.albums ==> n in r.albumOrder)
      && (forall n :: n in r.albumOrder ==> n in r.albums)
      && Distinct(r.albumOrder)
      && (forall p :: p in r.paths ==> p in r.pathOrder)
      && (forall p :: p in r.pathOrder ==> p in r.paths)
      && Distinct(r.pathOrder)
  {
    var r := AddTrack(s, t);
    if t.album in s.albums {
      assert r.albumOrder == s.albumOrder;
    } else {
      assert r.albumOrder == s.albumOrder + [t.album];
      DistinctSnoc(s.albumOrder, t.album);
    }
    if PagePath(t.album) in s.paths {
      assert r.pathOrder == s.pathOrder;
    } else {
      assert r.pathOrder == s.pathOrder + [PagePath(t.album)];
      DistinctSnoc(s.pathOrder, PagePath(t.album));
    }
  }

  lemma AddTrackPages(s: Store, t: Track)
    requires Consistent(s)
    ensures forall p :: p in AddTrack(s, t).paths ==> WellFormedPage(AddTrack(s, t), p)
  {
    var r := AddTrack(s, t);
    forall p | p in r.paths ensures WellFormedPage(r, p) {
      if p != PagePath(t.album) {
        assert WellFormedPage(s, p);
        var a := s.paths[p].album;
        assert a != t.album;
        assert r.paths[p] == s.paths[p];
        AddTrackOtherAlbum(s, t, a);
      }
    }
  }

  /** Every callback keeps the database consistent. */
  lemma AddTrackKeepsConsistent(s: Store, t: Track)
    requires Consistent(s)
    ensures Consistent(AddTrack(s, t))
  {
    var r := AddTrack(s, t);
    AddTrackKeyOrders(s, t);
    AddTrackPages(s, t);
    AddTrackAlbumWellFormed(s, t);
    forall n | n in r.albums ensures WellFormedAlbum(n, r.albums[n]) && PagePath(n) in r.paths {
      if n != t.album {
        AddTrackOtherAlbum(s, t, n);
      }
    }
  }

  /** The database after the callbacks of the tracks `ts`, in the order their callbacks ran. */
  function Aggregated(ts: seq<Track>): Store {
    if ts == [] then Empty else AddTrack(Aggregated(ts[..|ts| - 1]), ts[|ts| - 1])
  }

  /** The tracks of `ts` that belong to album `name`, in arrival order. */
  function OfAlbum(ts: seq<Track>, name: string): seq<Track> {
    if ts == [] then []
    else OfAlbum(ts[..|ts| - 1], name) + (if ts[|ts| - 1].album == name then [ts[|ts| - 1]] else [])
  }

  lemma AggregatedSnoc(ts: seq<Track>, t: Track)
    ensures Aggregated(ts + [t]) == AddTrack(Aggregated(ts), t)
  {
    Collections.SnocParts(ts, t);
  }

  /** However many callbacks ran, the database is consistent. */
  lemma {:induction false} AggregatedConsistent(ts: seq<Track>)
    ensures Consistent(Aggregated(ts))
  {
    if ts != [] {
      AggregatedConsistent(ts[..|ts| - 1]);
      AddTrackKeepsConsistent(Aggregated(ts[..|ts| - 1]), ts[|ts| - 1]);
    }
  }

  /** One callback creates its own album, if need be, and no other. */
  lemma AddTrackAlbums(s: Store, t: Track, name: string)
    ensures name in AddTrack(s, t).albums <==> name in s.albums || name == t.album
  {
  }

  /** One callback pushes its track onto its own album and touches no other album's tracks. */
  lemma AddTrackTracks(s: Store, t: Track, name: string)
    ensures AlbumTracks(AddTrack(s, t), name) ==
      if name == t.album then SortTracks(AlbumTracks(s, name) + [t]) else AlbumTracks(s, name)
  {
  }

  lemma OfAlbumSnoc(ts: seq<Track>, t: Track, name: string)
    ensures OfAlbum(ts + [t], name) == OfAlbum(ts, name) + (if t.album == name then [t] else [])
  {
    Collections.SnocParts(ts, t);
  }

  /** An album exists exactly when some track names it. */
  lemma {:induction false} AggregatedAlbums(ts: seq<Track>, name: string)
    ensures name in Aggregated(ts).albums <==> OfAlbum(ts, name) != []
  {
    if ts != [] {
      var init, t := ts[..|ts| - 1], ts[|ts| - 1];
      AggregatedAlbums(init, name);
      AddTrackAlbums(Aggregated(init), t, name);
    }
  }

  /**
   * An album's track list is one stable sort by track number of all its
   * tracks in arrival order: sorting again on every push loses and
   * reorders nothing beyond that.
   */
  lemma {:induction false} AggregatedTracks(ts: seq<Track>, name: string)
    ensures AlbumTracks(Aggregated(ts), name) == SortTracks(OfAlbum(ts, name))
  {
    if ts != [] {
      var init, t := ts[..|ts| - 1], ts[|ts| - 1];
      AggregatedTracks(init, name);
      AddTrackTracks(Aggregated(init), t, name);
      assert Aggregated(ts) == AddTrack(Aggregated(init), t);
      if t.album == name {
        assert OfAlbum(ts, name) == OfAlbum(init, name) + [t];
        StableSort.ResortAppend(OfAlbum(init, name), t, TrackNumber);
      } else {
        assert OfAlbum(ts, name) == OfAlbum(init, name);
      }
    }
  }

  /** The last track of `ts` whose album has page path `p`, if any. */
  function LastOnPage(ts: seq<Track>, p: string): Option<Track> {
    if ts == [] then None
    else if PagePath(ts[|ts| - 1].album) == p then Some(ts[|ts| - 1])
    else LastOnPage(ts[..|ts| - 1], p)
  }

  /** One callback (re)writes the page entry of its own page path, from its own track, and no other. */
  lemma AddTrackPage(s: Store, t: Track, p: string)
    ensures p in AddTrack(s, t).paths <==> p in s.paths || p == PagePath(t.album)
    ensures p == PagePath(t.album) ==>
      var page := AddTrack(s, t).paths[p];
      page.album == t.album && page.artist == t.artist && page.title == t.album + " | " + ToText(t.artist)
    ensures p != PagePath(t.album) && p in s.paths ==> AddTrack(s, t).paths[p] == s.paths[p]
  {
  }

  /**
   * A page entry exists exactly when some track's album has that page
   * path, and its album, artist and title are those of the last such
   * track to arrive: the page shows the artist of the latest track.
   */
  lemma {:induction false} AggregatedPage(ts: seq<Track>, p: string)
    ensures p in Aggregated(ts).paths <==> LastOnPage(ts, p).Some?
    ensures LastOnPage(ts, p).Some? ==>
      var t, page := LastOnPage(ts, p).value, Aggregated(ts).paths[p];
      page.album == t.album && page.artist == t.artist && page.title == t.album + " | " + ToText(t.artist)
  {
    if ts != [] {
      var init, t := ts[..|ts| - 1], ts[|ts| - 1];
      AggregatedPage(init, p);
      assert Aggregated(ts) == AddTrack(Aggregated(init), t);
      AddTrackPage(Aggregated(init), t, p);
    }
  }

  /** The track list of an album holds exactly its tracks. */
  lemma AlbumTracksPermutation(ts: seq<Track>, name: string)
    ensures multiset(AlbumTracks(Aggregated(ts), name)) == multiset(OfAlbum(ts, name))
  {
    AggregatedTracks(ts, name);
  }

  /** Tracks with the same number, or with no number at all, keep their arrival order. */
  lemma AlbumTracksStable(ts: seq<Track>, name: string, k: Option<int>)
    ensures StableSort.Ties(AlbumTracks(Aggregated(ts), name), TrackNumber, k) == StableSort.Ties(OfAlbum(ts, name), TrackNumber, k)
  {
    AggregatedTracks(ts, name);
    StableSort.SortByKeyStable(OfAlbum(ts, name), TrackNumber, k);
  }

  /**
   * When every track number parses, the track list ascends by number, so
   * the first track is the lowest-numbered one.
   */
  lemma AlbumTracksAscending(ts: seq<Track>, name: string)
    ensures var r := AlbumTracks(Aggregated(ts), name);
      StableSort.AllKeyed(r, TrackNumber) ==>
        StableSort.Sorted(r, TrackNumber)
        && forall i :: 0 < i < |r| ==> TrackNumber(r[0]).value <= TrackNumber(r[i]).value
  {
    AggregatedTracks(ts, name);
    if StableSort.AllKeyed(SortTracks(OfAlbum(ts, name)), TrackNumber) {
      StableSort.SortByKeyAscending(OfAlbum(ts, name), TrackNumber);
    }
  }

  /**
   * When every track number of an album parses, its track list is the one
   * order any stable sort gives: ascending by number, equal numbers in
   * arrival order.
   */
  lemma AlbumTracksUnique(ts: seq<Track>, name: string, r: seq<Track>)
    requires StableSort.AllKeyed(OfAlbum(ts, name), TrackNumber)
    requires StableSort.Sorted(r, TrackNumber)
    requires forall k :: StableSort.Ties(r, TrackNumber, k) == StableSort.Ties(OfAlbum(ts, name), TrackNumber, k)
    ensures r == AlbumTracks(Aggregated(ts), name)
  {
    AggregatedTracks(ts, name);
    StableSort.SortByKeyUnique(OfAlbum(ts, name), r, TrackNumber);
  }

  /**
   * Two album names with the same tidy form share one page path: the
   * album whose track arrives last owns the page, and the other album,
   * though still listed, has no page of its own.
   */
  lemma CollidingAlbumsSharePage(s: Store, t: Track, other: string)
    requires Consistent(s) && other in s.albums
    requires other != t.album && TidyURL(other) == TidyURL(t.album)
    ensures var r := AddTrack(s, t);
      && PagePath(other) == PagePath(t.album)
      && r.paths[PagePath(other)].album == t.album
      && r.paths[PagePath(other)].tracks == r.albums[t.album].tracks
      && r.albums[other] == s.albums[other]
      && forall p :: p in r.paths ==> r.paths[p].album != other
  {
    var r := AddTrack(s, t);
    AddTrackKeepsConsistent(s, t);
    forall p | p in r.paths ensures r.paths[p].album != other {
      assert WellFormedPage(r, p);
    }
  }

  /** An element of the array that replaces `database.albums` once every callback ran. */
  datatype AlbumEntry = AlbumEntry(name: string, year: int, link: string, tracks: seq<Track>)

  /** `parseInt(album.tracks[0].year)`, or 0 when that is NaN. */
  function AlbumYear(a: Album): int
    requires a.tracks != []
  {
    match TrackYear(a.tracks[0])
    case Some(y) => y
    case None => 0
  }

  /** The album object once `name` and `year` were added to it. */
  function Summary(name: string, a: Album): AlbumEntry
    requires a.tracks != []
  {
    AlbumEntry(name, AlbumYear(a), a.link, a.tracks)
  }

  /** Every listed album exists and has a track, which is all the `map` step needs. */
  predicate Listable(albums: map<string, Album>, keys: seq<string>) {
    forall k :: k in keys ==> k in albums && albums[k].tracks != []
  }

  /** What the final phase needs of the database: every listed album and every listed page exists. */
  predicate Plannable(s: Store) {
    Listable(s.albums, s.albumOrder) && forall p :: p in s.pathOrder ==> p in s.paths
  }

  /** `Object.keys(database.albums).map(...)`: one summary per key, in key order. */
  function Summaries(albums: map<string, Album>, keys: seq<string>): (r: seq<AlbumEntry>)
    requires Listable(albums, keys)
    ensures |r| == |keys|
  {
    seq(|keys|, i requires 0 <= i < |keys| => Summary(keys[i], albums[keys[i]]))
  }

  /** The comparator `album2.year - album1.year` is `key(album1) - key(album2)` for this key. */
  function NegYear(e: AlbumEntry): Option<int> {
    Some(-e.year)
  }

  lemma OwnKeysListable(albums: map<string, Album>, order: seq<string>)
    requires Listable(albums, order)
    ensures Listable(albums, JsObject.OwnKeys(order))
  {
    JsObject.OwnKeysPermutation(order);
    forall k | k in JsObject.OwnKeys(order) ensures k in albums && albums[k].tracks != [] {
      assert k in multiset(order);
    }
  }

  /** The summaries in the order `Object.keys(database.albums)` lists the albums. */
  function Listing(s: Store): (r: seq<AlbumEntry>)
    requires Listable(s.albums, s.albumOrder)
    ensures |r| == |s.albumOrder|
  {
    OwnKeysListable(s.albums, s.albumOrder);
    JsObject.OwnKeysPermutation(s.albumOrder);
    assert |multiset(JsObject.OwnKeys(s.albumOrder))| == |multiset(s.albumOrder)|;
    Summaries(s.albums, JsObject.OwnKeys(s.albumOrder))
  }

  /** The album list the artist pages receive: the listing stably sorted by year, newest first. */
  function Finalize(s: Store): (r: seq<AlbumEntry>)
    requires Listable(s.albums, s.albumOrder)
    ensures multiset(r) == multiset(Listing(s))
  {
    StableSort.SortByKey(Listing(s), NegYear)
  }

  /** Consistency gives what the final listing needs. */
  lemma ConsistentListable(s: Store)
    requires Consistent(s)
    ensures Listable(s.albums, s.albumOrder)
  {
    forall k | k in s.albumOrder ensures k in s.albums && s.albums[k].tracks != [] {
      assert WellFormedAlbum(k, s.albums[k]);
    }
  }

  /** The album list is ordered by year, newest first. */
  lemma FinalizeNewestFirst(s: Store)
    requires Listable(s.albums, s.albumOrder)
    ensures forall i, j :: 0 <= i < j < |Finalize(s)| ==> Finalize(s)[i].year >= Finalize(s)[j].year
  {
    StableSort.SortByKeySorted(Listing(s), NegYear);
    var r := Finalize(s);
    forall i, j | 0 <= i < j < |r| ensures r[i].year >= r[j].year {
      assert !StableSort.Greater(NegYear, r[i], r[j]);
    }
  }

  /** Albums of the same year keep the order in which `Object.keys` lists them. */
  lemma FinalizeStable(s: Store, year: int)
    requires Listable(s.albums, s.albumOrder)
    ensures StableSort.Ties(Finalize(s), NegYear, Some(-year)) == StableSort.Ties(Listing(s), NegYear, Some(-year))
  {
    StableSort.SortByKeyStable(Listing(s), NegYear, Some(-year));
  }

  /**
   * Every year is a number, so the album list is the one order any stable
   * sort by year, newest first, gives.
   */
  lemma FinalizeUnique(s: Store, r: seq<AlbumEntry>)
    requires Listable(s.albums, s.albumOrder)
    requires forall i, j :: 0 <= i < j < |r| ==> r[i].year >= r[j].year
    requires forall k :: StableSort.Ties(r, NegYear, k) == StableSort.Ties(Listing(s), NegYear, k)
    ensures r == Finalize(s)
  {
    StableSort.SortByKeyUnique(Listing(s), r, NegYear);
  }

  /** Each listing entry summarises the album it names. */
  lemma ListingSummaries(s: Store)
    requires Listable(s.albums, s.albumOrder)
    ensures forall e :: e in Listing(s) ==> e.name in s.albumOrder && e == Summary(e.name, s.albums[e.name])
  {
    JsObject.OwnKeysPermutation(s.albumOrder);
    var keys := JsObject.OwnKeys(s.albumOrder);
    var xs := Listing(s);
    forall e | e in xs ensures e.name in s.albumOrder && e == Summary(e.name, s.albums[e.name]) {
      var i :| 0 <= i < |xs| && xs[i] == e;
      assert keys[i] in multiset(s.albumOrder);
    }
  }

  /** Every listed album has its summary in the listing. */
  lemma ListingCovers(s: Store)
    requires Listable(s.albums, s.albumOrder)
    ensures forall n :: n in s.albumOrder ==> Summary(n, s.albums[n]) in Listing(s)
  {
    JsObject.OwnKeysPermutation(s.albumOrder);
    var keys := JsObject.OwnKeys(s.albumOrder);
    var xs := Listing(s);
    forall n | n in s.albumOrder ensures Summary(n, s.albums[n]) in xs {
      assert n in multiset(keys);
      var i :| 0 <= i < |keys| && keys[i] == n;
      assert xs[i] == Summary(n, s.albums[n]);
    }
  }

  /**
   * Every album appears in the list exactly once, with its name, link and
   * tracks, and with the year of its first (lowest-numbered) track.
   */
  lemma FinalizeListsEveryAlbum(s: Store)
    requires Consistent(s) && Listable(s.albums, s.albumOrder)
    ensures |Finalize(s)| == |s.albums|
    ensures forall e :: e in Finalize(s) ==> e.name in s.albums && e == Summary(e.name, s.albums[e.name])
    ensures forall n :: n in s.albums ==> Summary(n, s.albums[n]) in Finalize(s)
  {
    var r := Finalize(s);
    ListingSummaries(s);
    ListingCovers(s);
    DistinctCount(s.albumOrder, s.albums.Keys);
    assert |r| == |multiset(r)| == |multiset(Listing(s))| == |Listing(s)|;
    forall e | e in r ensures e.name in s.albums && e == Summary(e.name, s.albums[e.name]) {
      assert e in multiset(Listing(s));
    }
    forall n | n in s.albums ensures Summary(n, s.albums[n]) in r {
      assert Summary(n, s.albums[n]) in multiset(Listing(s));
    }
  }

  /** A key order that lists each key of a set once has one entry per key. */
  lemma {:induction false} DistinctCount(order: seq<string>, keys: set<string>)
    requires Distinct(order)
    requires forall k :: k in keys ==> k in order
    requires forall k :: k in order ==> k in keys
    ensures |order| == |keys|
  {
    if order != [] {
      var init, last := order[..|order| - 1], order[|order| - 1];
      assert Distinct(init) by {
        forall i, j | 0 <= i < j < |init| ensures init[i] != init[j] {
          assert init[i] == order[i] && init[j] == order[j];
        }
      }
      forall k | k in init ensures k != last {
        var i :| 0 <= i < |init| && init[i] == k;
        assert order[i] == k;
      }
      forall k | k in keys - {last} ensures k in init {
        var i :| 0 <= i < |order| && order[i] == k;
        assert i != |order| - 1;
        assert init[i] == k;
      }
      DistinctCount(init, keys - {last});
    }
  }

  /** A year tag that starts with an integer, such as "2009" or "2009-05-01", gives that year. */
  lemma AlbumYearOfText(a: Album, y: int, rest: string)
    requires a.tracks != [] && a.tracks[0].year == Some(JsNumber.IntToString(y) + rest)
    requires rest == [] || (!JsNumber.IsDigit(rest[0], 10) && rest[0] != 'x' && rest[0] != 'X')
    ensures AlbumYear(a) == y
  {
    JsNumber.ParseIntOfIntToString(y, rest);
  }

  /** An album whose first track has no year tag is given the year 0. */
  lemma AlbumYearMissing(a: Album)
    requires a.tracks != [] && a.tracks[0].year == None
    ensures AlbumYear(a) == 0
  {
    JsNumber.ParseIntUndefined();
  }

  /** Page paths all start with '/', so none is an array index. */
  lemma PagesAreNotIndices(s: Store)
    requires Consistent(s)
    ensures forall p :: p in s.pathOrder ==> p in s.paths && JsObject.ArrayIndex(p).None?
  {
    forall p | p in s.pathOrder ensures p in s.paths && JsObject.ArrayIndex(p).None? {
      assert WellFormedPage(s, p);
      assert p[0] == '/';
      assert !JsObject.AllDecimal(p);
    }
  }

  /**
   * Only the album "" has the page path "/albums/", whose page file
   * `<output>/albums//index.html` names the album index file once the
   * repeated '/' is collapsed.
   */
  lemma PagePathOfEmpty(name: string, output: string)
    ensures PagePath(name) == "/albums/" <==> name == ""
    ensures name == "" ==> output + PagePath(name) + "/index.html" == output + "/albums//index.html"
  {
    assert |PagePath(name)| == 8 + |name|;
  }

  /** So `Object.keys(database.paths)` lists the pages in creation order. */
  lemma PagesInCreationOrder(s: Store)
    requires Consistent(s)
    ensures JsObject.OwnKeys(s.pathOrder) == s.pathOrder
  {
    PagesAreNotIndices(s);
    JsObject.OwnKeysInCreationOrder(s.pathOrder);
  }

  /** What a page file is rendered from: an album page, or the album index (`copy` marks the copied one). */
  datatype Page = AlbumPageFile(page: AlbumPage) | IndexFile(albums: seq<AlbumEntry>, copy: bool)

  /** One file-system step of the final phase. */
  datatype Step = MakeDirectory(path: string) | WriteFile(path: string, page: Page)

  /** For each page path in turn: create its directory under the output root, then write its page. */
  function AlbumPageSteps(output: string, urls: seq<string>, paths: map<string, AlbumPage>): (r: seq<Step>)
    requires forall u :: u in urls ==> u in paths
    ensures |r| == 2 * |urls|
  {
    if urls == [] then []
    else
      var u := urls[|urls| - 1];
      AlbumPageSteps(output, urls[..|urls| - 1], paths)
        + [MakeDirectory(output + u), WriteFile(output + u + "/index.html", AlbumPageFile(paths[u]))]
  }

  /** The album index: first the optional copy below the working directory, then the one under the output root. */
  function IndexSteps(output: string, cwd: string, copyIndex: Option<string>, list: seq<AlbumEntry>): (r: seq<Step>)
    ensures |r| >= 1 && r[|r| - 1] == WriteFile(output + "/albums/index.html", IndexFile(list, false))
  {
    (if copyIndex.Some? then [WriteFile(cwd + "/" + copyIndex.value + "/index.html", IndexFile(list, true))] else [])
      + [WriteFile(output + "/albums/index.html", IndexFile(list, false))]
  }

  /** Everything the final phase does to the file system, in order. */
  function WritePlan(output: string, cwd: string, copyIndex: Option<string>, s: Store): seq<Step>
    requires Plannable(s)
  {
    JsObject.OwnKeysPermutation(s.pathOrder);
    assert forall u :: u in JsObject.OwnKeys(s.pathOrder) ==> u in s.paths by {
      forall u | u in JsObject.OwnKeys(s.pathOrder) ensures u in s.paths {
        assert u in multiset(s.pathOrder);
      }
    }
    AlbumPageSteps(output, JsObject.OwnKeys(s.pathOrder), s.paths)
      + IndexSteps(output, cwd, copyIndex, Finalize(s))
  }

  lemma AlbumPageStepsSnoc(output: string, urls: seq<string>, u: string, paths: map<string, AlbumPage>)
    requires forall v :: v in urls ==> v in paths
    requires u in paths
    ensures AlbumPageSteps(output, urls + [u], paths) == AlbumPageSteps(output, urls, paths)
      + [MakeDirectory(output + u), WriteFile(output + u + "/index.html", AlbumPageFile(paths[u]))]
  {
    Collections.SnocParts(urls, u);
  }

  lemma {:induction false} AlbumPageStepsAt(output: string, urls: seq<string>, paths: map<string, AlbumPage>, k: nat)
    requires forall u :: u in urls ==> u in paths
    requires k < |urls|
    ensures AlbumPageSteps(output, urls, paths)[2 * k] == MakeDirectory(output + urls[k])
    ensures AlbumPageSteps(output, urls, paths)[2 * k + 1] ==
      WriteFile(output + urls[k] + "/index.html", AlbumPageFile(paths[urls[k]]))
  {
    var init := urls[..|urls| - 1];
    if k < |urls| - 1 {
      AlbumPageStepsAt(output, init, paths, k);
      assert init[k] == urls[k];
    }
  }

  /** Page files under distinct page paths have distinct names. */
  lemma PageTargetsDiffer(output: string, u: string, v: string)
    requires u != v
    ensures output + u + "/index.html" != output + v + "/index.html"
  {
    if |u| == |v| {
      assert (output + u + "/index.html")[|output|..|output| + |u|] == u;
      assert (output + v + "/index.html")[|output|..|output| + |v|] == v;
    }
  }

  /** The final phase writes the page of the `k`th page key as its `2k+1`st step. */
  lemma WritePlanPageAt(output: string, cwd: string, copyIndex: Option<string>, s: Store, k: nat)
    requires Writable(s) && k < |s.pathOrder|
    ensures 2 * k + 1 < |WritePlan(output, cwd, copyIndex, s)|
    ensures WritePlan(output, cwd, copyIndex, s)[2 * k + 1] ==
      WriteFile(output + s.pathOrder[k] + "/index.html", AlbumPageFile(s.paths[s.pathOrder[k]]))
  {
    WritePlanIs(output, cwd, copyIndex, s);
    var pages := AlbumPageSteps(output, s.pathOrder, s.paths);
    AlbumPageStepsAt(output, s.pathOrder, s.paths, k);
    Collections.AppendAt(pages, IndexSteps(output, cwd, copyIndex, Finalize(s)), 2 * k + 1);
  }

  /** The final phase writes the page of every album at the album's page path. */
  lemma WritePlanWritesEveryPage(output: string, cwd: string, copyIndex: Option<string>, s: Store)
    requires Consistent(s) && Listable(s.albums, s.albumOrder)
    ensures forall n :: n in s.albums ==>
      WriteFile(output + PagePath(n) + "/index.html", AlbumPageFile(s.paths[PagePath(n)]))
        in WritePlan(output, cwd, copyIndex, s)
  {
    ConsistentWritable(s);
    var urls := s.pathOrder;
    var plan := WritePlan(output, cwd, copyIndex, s);
    forall n | n in s.albums
      ensures WriteFile(output + PagePath(n) + "/index.html", AlbumPageFile(s.paths[PagePath(n)])) in plan
    {
      var k :| 0 <= k < |urls| && urls[k] == PagePath(n);
      WritePlanPageAt(output, cwd, copyIndex, s, k);
    }
  }

  lemma AlbumPageTargetsDistinct(output: string, urls: seq<string>, paths: map<string, AlbumPage>)
    requires forall u :: u in urls ==> u in paths
    requires Distinct(urls)
    ensures var r := AlbumPageSteps(output, urls, paths);
      forall i, j :: 0 <= i < j < |r| && r[i].WriteFile? && r[j].WriteFile? ==> r[i].path != r[j].path
  {
    var r := AlbumPageSteps(output, urls, paths);
    forall i, j | 0 <= i < j < |r| && r[i].WriteFile? && r[j].WriteFile? ensures r[i].path != r[j].path {
      var a, b := i / 2, j / 2;
      AlbumPageStepsAt(output, urls, paths, a);
      AlbumPageStepsAt(output, urls, paths, b);
      assert i == 2 * a + 1 && j == 2 * b + 1;
      PageTargetsDiffer(output, urls[a], urls[b]);
    }
  }

  lemma AlbumPageTargetsNotIndex(output: string, urls: seq<string>, paths: map<string, AlbumPage>)
    requires forall u :: u in urls ==> u in paths
    requires forall u :: u in urls ==> |u| >= 8
    ensures var r := AlbumPageSteps(output, urls, paths);
      forall i :: 0 <= i < |r| && r[i].WriteFile? ==> r[i].path != output + "/albums/index.html"
  {
    var r := AlbumPageSteps(output, urls, paths);
    forall i | 0 <= i < |r| && r[i].WriteFile? ensures r[i].path != output + "/albums/index.html" {
      var k := i / 2;
      AlbumPageStepsAt(output, urls, paths, k);
      assert i == 2 * k + 1;
      assert urls[k] in urls;
    }
  }

  /**
   * What the final phase needs of the database, and that no page key is an
   * array index, so that `Object.keys` lists the pages in creation order.
   */
  predicate Writable(s: Store) {
    Plannable(s) && forall p :: p in s.pathOrder ==> JsObject.ArrayIndex(p).None?
  }

  lemma ConsistentWritable(s: Store)
    requires Consistent(s)
    ensures Writable(s)
  {
    ConsistentListable(s);
    PagesAreNotIndices(s);
  }

  /** The final phase writes the album pages in creation order, then the index files. */
  lemma WritePlanIs(output: string, cwd: string, copyIndex: Option<string>, s: Store)
    requires Writable(s)
    ensures WritePlan(output, cwd, copyIndex, s) ==
      AlbumPageSteps(output, s.pathOrder, s.paths) + IndexSteps(output, cwd, copyIndex, Finalize(s))
  {
    JsObject.OwnKeysInCreationOrder(s.pathOrder);
  }

  /**
   * In a consistent database the final phase writes the album pages in
   * creation order, no two to the same path string and none to the path
   * string of the album index, and then the index files. Paths are
   * compared as strings: see `PagePathOfEmpty` for a page that is the
   * index file on disk.
   */
  lemma WritePlanSplit(output: string, cwd: string, copyIndex: Option<string>, s: Store)
    requires Consistent(s) && Listable(s.albums, s.albumOrder)
    ensures var pages := AlbumPageSteps(output, s.pathOrder, s.paths);
      && WritePlan(output, cwd, copyIndex, s) == pages + IndexSteps(output, cwd, copyIndex, Finalize(s))
      && (forall i, j :: 0 <= i < j < |pages| && pages[i].WriteFile? && pages[j].WriteFile? ==>
            pages[i].path != pages[j].path)
      && (forall i :: 0 <= i < |pages| && pages[i].WriteFile? ==> pages[i].path != output + "/albums/index.html")
  {
    PagesInCreationOrder(s);
    AlbumPageTargetsDistinct(output, s.pathOrder, s.paths);
    forall u | u in s.pathOrder ensures |u| >= 8 {
      assert WellFormedPage(s, u);
    }
    AlbumPageTargetsNotIndex(output, s.pathOrder, s.paths);
  }

  /** The final phase ends with the album index, which lists the final album list. */
  lemma WritePlanEndsWithIndex(output: string, cwd: string, copyIndex: Option<string>, s: Store)
    requires Listable(s.albums, s.albumOrder)
    requires forall p :: p in s.pathOrder ==> p in s.paths
    ensures var plan := WritePlan(output, cwd, copyIndex, s);
      plan[|plan| - 1] == WriteFile(output + "/albums/index.html", IndexFile(Finalize(s), false))
  {
  }

  /** What the tag decoder reports for one file: its tags, or a failure. */
  datatype Event = Decoded(file: string, tags: Tags) | Failed(file: string)

  /** The number of success callbacks among `events`, which is what the counter holds after them. */
  function Successes(events: seq<Event>): nat {
    if events == [] then 0
    else Successes(events[..|events| - 1]) + (if events[|events| - 1].Decoded? then 1 else 0)
  }

  /** How often the counter test `counter === files.length` passes while the events are handled in order. */
  function Firings(total: nat, events: seq<Event>): nat {
    if events == [] then 0
    else
      Firings(total, events[..|events| - 1])
        + (if events[|events| - 1].Decoded? && Successes(events) == total then 1 else 0)
  }

  /** The prepared tracks of the decoded files, in the order their callbacks ran. */
  function Arrivals(events: seq<Event>, dirname: string): seq<Track> {
    if events == [] then []
    else
      var last := events[|events| - 1];
      Arrivals(events[..|events| - 1], dirname) + (if last.Decoded? then [Prepare(last.tags, last.file, dirname)] else [])
  }

  /** One more decoded file: one more success and one more arrival. */
  lemma DecodedSnoc(events: seq<Event>, file: string, tags: Tags, total: nat, dirname: string)
    ensures Successes(events + [Decoded(file, tags)]) == Successes(events) + 1
    ensures Firings(total, events + [Decoded(file, tags)]) ==
      Firings(total, events) + (if Successes(events) + 1 == total then 1 else 0)
    ensures Arrivals(events + [Decoded(file, tags)], dirname) == Arrivals(events, dirname) + [Prepare(tags, file, dirname)]
  {
    Collections.SnocParts(events, Decoded(file, tags));
  }

  /** One more failed file: nothing is counted and nothing arrives. */
  lemma FailedSnoc(events: seq<Event>, file: string, total: nat, dirname: string)
    ensures Successes(events + [Failed(file)]) == Successes(events)
    ensures Firings(total, events + [Failed(file)]) == Firings(total, events)
    ensures Arrivals(events + [Failed(file)], dirname) == Arrivals(events, dirname)
  {
    Collections.SnocParts(events, Failed(file));
  }

  /** The counter never exceeds the number of callbacks, and reaches it exactly when none failed. */
  lemma {:induction false} SuccessesAtMost(events: seq<Event>)
    ensures Successes(events) <= |events|
    ensures Successes(events) == |events| <==> forall i :: 0 <= i < |events| ==> events[i].Decoded?
  {
    if events != [] {
      var init := events[..|events| - 1];
      SuccessesAtMost(init);
      if forall i :: 0 <= i < |init| ==> init[i].Decoded? {
        if events[|events| - 1].Decoded? {
          forall i | 0 <= i < |events| ensures events[i].Decoded? {
            if i < |init| { assert events[i] == init[i]; }
          }
        }
      } else {
        var i :| 0 <= i < |init| && !init[i].Decoded?;
        assert events[i] == init[i];
      }
    }
  }

  /** While no more events than files were handled, the test has passed once if the counter is full and never otherwise. */
  lemma {:induction false} FiringsCount(total: nat, events: seq<Event>)
    requires |events| <= total
    ensures Firings(total, events) == if events != [] && Successes(events) == total then 1 else 0
  {
    if events != [] {
      var init := events[..|events| - 1];
      FiringsCount(total, init);
      SuccessesAtMost(init);
    }
  }

  /** Before the last file's callback, the test has not passed yet. */
  lemma NotYetFired(total: nat, events: seq<Event>)
    requires |events| < total
    ensures Successes(events) < total && Firings(total, events) == 0
  {
    FiringsCount(total, events);
    SuccessesAtMost(events);
  }

  /**
   * With one callback per file, the final phase runs at most once, and it
   * runs exactly when there is at least one file and no file failed to
   * decode.
   */
  lemma FinalizeFiresOnce(total: nat, events: seq<Event>)
    requires |events| == total
    ensures Firings(total, events) <= 1
    ensures Firings(total, events) == 1 <==> total > 0 && forall i :: 0 <= i < |events| ==> events[i].Decoded?
  {
    FiringsCount(total, events);
    SuccessesAtMost(events);
  }

  /** When it runs, it runs on the last callback: before it, the test has not passed. */
  lemma FinalizeFiresLast(total: nat, events: seq<Event>)
    requires |events| == total && total > 0
    ensures Firings(total, events[..|events| - 1]) == 0
  {
    var init := events[..|events| - 1];
    FiringsCount(total, init);
    SuccessesAtMost(init);
  }

  /** The members every ordinary object inherits from `Object.prototype`. */
  const ObjectPrototypeMembers: set<string> := {
    "constructor", "__defineGetter__", "__defineSetter__", "hasOwnProperty",
    "__lookupGetter__", "__lookupSetter__", "isPrototypeOf", "propertyIsEnumerable",
    "toString", "valueOf", "__proto__", "toLocaleString" }

  /** The lookup `database.albums[name]`: an own entry, an inherited member, or undefined. */
  datatype Lookup = Own(album: Album) | Inherited | Undefined

  function LookupAsWritten(s: Store, name: string): (r: Lookup)
    ensures r.Own? <==> name in s.albums
    ensures r.Undefined? <==> name !in s.albums && name !in ObjectPrototypeMembers
  {
    if name in s.albums then Own(s.albums[name])
    else if name in ObjectPrototypeMembers then Inherited
    else Undefined
  }

  /**
   * The callback as written. An inherited member is truthy, so no album is
   * created for its name; the member has no `tracks`, so the push throws a
   * TypeError (None) before `complete` is reached.
   */
  function AddTrackAsWritten(s: Store, t: Track): (r: Option<Store>)
    ensures r.None? <==> t.album !in s.albums && t.album in ObjectPrototypeMembers
    ensures r.Some? ==> r.value == AddTrack(s, t)
  {
    match LookupAsWritten(s, t.album)
    case Inherited => None
    case _ => Some(AddTrack(s, t))
  }

  /**
   * A track of an album called "constructor" makes the callback as written
   * throw, while the own-key lookup of `AddTrack` files it under that album
   * like any other.
   */
  lemma ConstructorAlbumThrows(s: Store, t: Track)
    requires t.album == "constructor" && t.album !in s.albums
    ensures AddTrackAsWritten(s, t) == None
    ensures t.album in AddTrack(s, t).albums && AddTrack(s, t).albums[t.album].tracks == [t]
  {
    assert [t][..0] == [];
  }
}
