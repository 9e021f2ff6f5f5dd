/**
 * The bookkeeping of the glob callback as values: the counter and what the
 * final phase left behind, and the state reached after a run of callbacks.
 */
module Callbacks {
  import opened Wrappers
  import opened Tracks
  import opened Aggregate

  /** What one run over the files fixes: their number and the directories it uses. */
  datatype Job = Job(total: nat, dirname: string, output: string, cwd: string, copyIndex: Option<string>)

  /** The counter, the album list, the steps taken and how often the final phase ran. */
  datatype Tally = Tally(counter: nat, albumList: seq<AlbumEntry>, steps: seq<Step>, runs: nat)

  /**
   * What `complete` did to the tally of `job`, with the database holding
   * `s`: the counter went up by one; if it now equals the number of files,
   * the album list is the final one and the write plan was carried out;
   * otherwise nothing else changed.
   */
  ghost predicate CountedFrom(job: Job, s: Store, before: Tally, after: Tally) {
    && after.counter == before.counter + 1
    && (after.counter == job.total ==>
      && Plannable(s)
      && after.albumList == Finalize(s)
      && after.steps == before.steps + WritePlan(job.output, job.cwd, job.copyIndex, s)
      && after.runs == before.runs + 1)
    && (after.counter != job.total ==>
      after.albumList == before.albumList && after.steps == before.steps && after.runs == before.runs)
  }

  /**
   * The state after the callbacks of `events` ran: the database holds their
   * decoded tracks, the counter their number, and the final phase ran as
   * often as the counter test passed, with its effect recorded.
   */
  ghost predicate Reached(job: Job, s: Store, tally: Tally, events: seq<Event>) {
    && s == Aggregated(Arrivals(events, job.dirname))
    && tally.counter == Successes(events)
    && tally.runs == Firings(job.total, events)
    && (tally.runs == 1 ==> (
      AggregatedConsistent(Arrivals(events, job.dirname));
      ConsistentListable(s);
      tally.albumList == Finalize(s) && tally.steps == WritePlan(job.output, job.cwd, job.copyIndex, s)))
    && (tally.runs == 0 ==> tally.steps == [])
  }

  /** A success callback before the last one keeps `Reached` going. */
  lemma SucceedStep(job: Job, done: seq<Event>, file: string, tags: Tags, s0: Store, t0: Tally, s1: Store, t1: Tally)
    requires Reached(job, s0, t0, done) && |done| < job.total
    requires s1 == AddTrack(s0, Prepare(tags, file, job.dirname))
    requires Consistent(s1) && Listable(s1.albums, s1.albumOrder)
    requires CountedFrom(job, s1, t0, t1)
    ensures Reached(job, s1, t1, done + [Decoded(file, tags)])
  {
    DecodedSnoc(done, file, tags, job.total, job.dirname);
    AggregatedSnoc(Arrivals(done, job.dirname), Prepare(tags, file, job.dirname));
    TallyStep(job, done, file, tags, s1, t0, t1);
  }

  /** The tally half of `SucceedStep`: the counter and the final phase. */
  lemma TallyStep(job: Job, done: seq<Event>, file: string, tags: Tags, s1: Store, t0: Tally, t1: Tally)
    requires t0.counter == Successes(done) && t0.runs == Firings(job.total, done)
    requires t0.runs == 0 ==> t0.steps == []
    requires |done| < job.total
    requires Plannable(s1)
    requires CountedFrom(job, s1, t0, t1)
    ensures t1.counter == Successes(done + [Decoded(file, tags)])
    ensures t1.runs == Firings(job.total, done + [Decoded(file, tags)])
    ensures t1.runs == 1 ==>
      t1.albumList == Finalize(s1) && t1.steps == WritePlan(job.output, job.cwd, job.copyIndex, s1)
    ensures t1.runs == 0 ==> t1.steps == []
  {
    DecodedSnoc(done, file, tags, job.total, job.dirname);
    NotYetFired(job.total, done);
  }
}
