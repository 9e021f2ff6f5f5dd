/**
 * The glob callback's state and its two closures: the success callback
 * that files each decoded track, and `complete`, which counts callbacks and
 * on the last one builds the album list and writes every page.
 */
module Site {
  import opened Wrappers
  import opened JsStrings
  import opened Tracks
  import opened Helpers
  import opened Aggregate
  import opened Callbacks
  import Base64
  import JsObject
  import Collections

  /** `database`, `counter` and the steps the final phase took, for one run over `total` files. */
  class Database {
    var albums: map<string, Album>
    var albumOrder: seq<string>
    var paths: map<string, AlbumPage>
    var pathOrder: seq<string>
    var counter: nat
    /** The year-sorted array that replaces `database.albums` in the final phase. */
    var albumList: seq<AlbumEntry>
    /** Directories made and files written, in order. */
    var steps: seq<Step>
    /** How often the final phase has run. */
    ghost var finalizeRuns: nat

    const total: nat
    const cwd: string
    const dirname: string
    const output: string
    const copyIndex: Option<string>

    function State(): Store
      reads this`albums, this`albumOrder, this`paths, this`pathOrder
    {
      Store(albums, albumOrder, paths, pathOrder)
    }

    ghost predicate Valid()
      reads this`albums, this`albumOrder, this`paths, this`pathOrder
    {
      Consistent(State()) && Listable(albums, albumOrder)
    }

    /** The run's fixed parameters, as one value. */
    function Params(): Job {
      Job(total, dirname, output, cwd, copyIndex)
    }

    /** The counter, album list, steps and run count, as one value. */
    ghost function Tallied(): Tally
      reads this`counter, this`albumList, this`steps, this`finalizeRuns
    {
      Tally(counter, albumList, steps, finalizeRuns)
    }

    /** What `complete` did, given the tally before it (see `CountedFrom`). */
    ghost predicate Counted(before: Tally)
      reads this
    {
      CountedFrom(Params(), State(), before, Tallied())
    }

    /** The state the glob callback starts from, for the `total` files it found. */
    constructor (total: nat, cwd: string, sep: string, output: string, copyIndex: Option<string>)
      ensures Valid() && State() == Empty && Progress([])
      ensures counter == 0 && steps == [] && albumList == [] && finalizeRuns == 0
      ensures this.total == total && this.cwd == cwd && this.dirname == Dirname(cwd, sep)
      ensures this.output == output && this.copyIndex == copyIndex
    {
      this.total := total;
      this.cwd := cwd;
      this.dirname := Dirname(cwd, sep);
      this.output := output;
      this.copyIndex := copyIndex;
      albums := map[];
      albumOrder := [];
      paths := map[];
      pathOrder := [];
      counter := 0;
      albumList := [];
      steps := [];
      finalizeRuns := 0;
      new;
      ConsistentListable(State());
    }

    /**
     * The success callback: rewrite the decoded tags into a track, file it
     * under its album (created on first use), keep the album's tracks
     * ordered by track number, refresh the album's page entry, then call
     * `complete`.
     */
    method OnSuccess(file: string, tags: Tags)
      requires Valid()
      modifies this`albums, this`albumOrder, this`paths, this`pathOrder
      modifies this`counter, this`albumList, this`steps, this`finalizeRuns
      ensures Valid()
      ensures State() == AddTrack(old(State()), Prepare(tags, file, dirname))
      ensures Counted(old(Tallied()))
    {
      var t := PrepareTrack(file, tags);
      ghost var before := State();
      AddToAlbum(t);
      ghost var after := State();
      assert after == AddTrack(before, t);
      ConsistentWritable(after);
      Complete();
      assert State() == after;
    }

    /** The rewriting part of the callback: lyrics, comment, cover and path. */
    method PrepareTrack(file: string, tags: Tags) returns (t: Track)
      ensures t == Prepare(tags, file, dirname)
    {
      var picture: Option<string> := None;
      if tags.picture.Some? {
        var binary := BinaryStringOf(tags.picture.value);
        picture := Some(DataUriPrefix + Base64.Btoa(binary));
      }
      t := Track(
        tags.artist, tags.album, tags.title, tags.track, tags.year,
        RewriteLyrics(tags.lyrics), RewriteComment(tags.comment), picture, StripDir(file, dirname));
    }

    /**
     * The filing part of the callback: create the album on first use, push
     * the track and sort the album's tracks by number, then set the
     * album's page entry.
     */
    method AddToAlbum(t: Track)
      requires Valid()
      modifies this`albums, this`albumOrder, this`paths, this`pathOrder
      ensures Valid()
      ensures State() == AddTrack(old(State()), t)
    {
      var s := State();
      var name := t.album;
      var album := Album(TidyURL(name), []);
      var newAlbumOrder := albumOrder + [name];
      if name in albums {
        album := albums[name];
        newAlbumOrder := albumOrder;
      }
      var tracks := SortTracks(album.tracks + [t]);
      var url := PagePath(name);
      var newPathOrder := if url in paths then pathOrder else pathOrder + [url];
      var r := Store(
        albums[name := album.(tracks := tracks)],
        newAlbumOrder,
        paths[url := AlbumPage(name, name + " | " + ToText(t.artist), t.artist, tracks)],
        newPathOrder);
      assert r == AddTrack(s, t);
      AddTrackKeepsConsistent(s, t);
      ConsistentListable(r);
      albums, albumOrder, paths, pathOrder := r.albums, r.albumOrder, r.paths, r.pathOrder;
      assert State() == r;
    }

    /**
     * The `Object.keys(database.paths).forEach` loop: for each page, make
     * its directory, then write the page. The keys are page paths, which
     * `Object.keys` lists in creation order.
     */
    method PageSteps() returns (r: seq<Step>)
      requires forall p :: p in pathOrder ==> p in paths && JsObject.ArrayIndex(p).None?
      ensures r == AlbumPageSteps(output, pathOrder, paths)
    {
      JsObject.OwnKeysInCreationOrder(pathOrder);
      var urls := JsObject.OwnKeys(pathOrder);
      r := [];
      var i := 0;
      while i < |urls|
        invariant 0 <= i <= |urls|
        invariant forall u :: u in urls ==> u in paths
        invariant r == AlbumPageSteps(output, urls[..i], paths)
      {
        var url := urls[i];
        Collections.PrefixSnoc(urls, i);
        AlbumPageStepsSnoc(output, urls[..i], url, paths);
        r := r + [MakeDirectory(output + url), WriteFile(output + url + "/index.html", AlbumPageFile(paths[url]))];
        i := i + 1;
      }
      assert urls[..i] == urls;
    }

    /** The index files: the optional copy below the working directory, then the one under the output root. */
    method IndexSteps(list: seq<AlbumEntry>) returns (r: seq<Step>)
      ensures r == Aggregate.IndexSteps(output, cwd, copyIndex, list)
    {
      r := [];
      if copyIndex.Some? {
        r := r + [WriteFile(cwd + "/" + copyIndex.value + "/index.html", IndexFile(list, true))];
      }
      r := r + [WriteFile(output + "/albums/index.html", IndexFile(list, false))];
    }

    /**
     * The final phase: replace the albums by the year-sorted list, make the
     * directory of and write every album page, then write the index.
     */
    method FinalPhase()
      requires Writable(State())
      modifies this`albumList, this`steps
      ensures albumList == Finalize(State())
      ensures steps == old(steps) + WritePlan(output, cwd, copyIndex, State())
    {
      var s := State();
      WritePlanIs(output, cwd, copyIndex, s);
      var pages := PageSteps();
      var list := Finalize(s);
      var index := IndexSteps(list);
      assert pages + index == WritePlan(output, cwd, copyIndex, s);
      albumList := list;
      steps := steps + (pages + index);
      assert State() == s;
    }

    /**
     * The state after the callbacks of `events` ran: the database holds
     * their decoded tracks, the counter their number, and the final phase
     * ran as often as the counter test passed, with its effect recorded.
     */
    ghost predicate Progress(events: seq<Event>)
      reads this
    {
      Reached(Params(), State(), Tallied(), events)
    }

    /**
     * One file's callback after those of `done`: `onSuccess` for a decoded
     * file, `onError` (which only logs) for one that failed.
     */
    method Deliver(ghost done: seq<Event>, e: Event)
      requires Progress(done) && |done| < total
      modifies this`albums, this`albumOrder, this`paths, this`pathOrder
      modifies this`counter, this`albumList, this`steps, this`finalizeRuns
      ensures Progress(done + [e])
    {
      match e {
        case Decoded(file, tags) =>
          Succeed(done, file, tags);
        case Failed(file) =>
          FailedSnoc(done, file, total, dirname);
      }
    }

    /** `onSuccess` after the callbacks of `done`. */
    method Succeed(ghost done: seq<Event>, file: string, tags: Tags)
      requires Progress(done) && |done| < total
      modifies this`albums, this`albumOrder, this`paths, this`pathOrder
      modifies this`counter, this`albumList, this`steps, this`finalizeRuns
      ensures Progress(done + [Decoded(file, tags)])
    {
      ghost var s0, t0 := State(), Tallied();
      AggregatedConsistent(Arrivals(done, dirname));
      ConsistentListable(s0);
      OnSuccess(file, tags);
      SucceedStep(Params(), done, file, tags, s0, t0, State(), Tallied());
    }

    /** `complete`: count one callback, and run the final phase on the last one. */
    method Complete()
      requires Writable(State())
      modifies this`counter, this`albumList, this`steps, this`finalizeRuns
      ensures State() == old(State())
      ensures Counted(old(Tallied()))
    {
      ghost var s, before := State(), Tallied();
      counter := counter + 1;
      if counter == total {
        finalizeRuns := finalizeRuns + 1;
        FinalPhase();
        assert State() == s;
        assert Tallied() == before.(counter := before.counter + 1, albumList := Finalize(s),
          steps := before.steps + WritePlan(output, cwd, copyIndex, s), runs := before.runs + 1);
      } else {
        assert Tallied() == before.(counter := before.counter + 1);
      }
    }
  }

  /** The files the callbacks belong to, in the order they ran. */
  function FilesOf(events: seq<Event>): seq<string> {
    seq(|events|, i requires 0 <= i < |events| => events[i].file)
  }

  /**
   * The glob callback over the files found: each file's callback runs
   * once, in the order given by `events`. Every decoded file is filed, and
   * the final phase runs once, on the last callback, exactly when there
   * are files and none failed to decode; otherwise nothing is written.
   */
  method Run(files: seq<string>, events: seq<Event>, cwd: string, sep: string, output: string, copyIndex: Option<string>)
    returns (db: Database)
    requires multiset(FilesOf(events)) == multiset(files)
    ensures fresh(db) && db.Valid()
    ensures db.State() == Aggregated(Arrivals(events, Dirname(cwd, sep)))
    ensures db.counter == Successes(events)
    ensures db.finalizeRuns == Firings(|files|, events) && db.finalizeRuns <= 1
    ensures db.finalizeRuns == 1 <==> |files| > 0 && forall i :: 0 <= i < |events| ==> events[i].Decoded?
    ensures db.finalizeRuns == 1 ==>
      db.albumList == Finalize(db.State()) && db.steps == WritePlan(output, cwd, copyIndex, db.State())
    ensures db.finalizeRuns == 0 ==> db.steps == []
  {
    db := new Database(|files|, cwd, sep, output, copyIndex);
    assert |events| == |files| by {
      assert |FilesOf(events)| == |multiset(FilesOf(events))|;
    }
    var i := 0;
    ghost var done: seq<Event> := [];
    while i < |events|
      invariant 0 <= i <= |events| && done == events[..i]
      invariant fresh(db)
      invariant db.total == |files| && db.dirname == Dirname(cwd, sep)
      invariant db.cwd == cwd && db.output == output && db.copyIndex == copyIndex
      invariant db.Progress(done)
    {
      Collections.PrefixSnoc(events, i);
      db.Deliver(done, events[i]);
      done := done + [events[i]];
      i := i + 1;
    }
    assert done == events;
    AggregatedConsistent(Arrivals(events, db.dirname));
    ConsistentListable(db.State());
    FinalizeFiresOnce(|files|, events);
  }
}
